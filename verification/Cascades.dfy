/**
 * What a cascading delete reaches (src/backend/CascadeTargets.ts:56-136), beside what loading the view loads
 * (src/backend/ViewProjector.ts:76-137) and what saving it writes (src/backend/SaveStatementBuilder.ts:419-430). A view
 * may hold views of its own class, so all three unroll a cyclic model, each relationship as often as its maxDepth.
 */
module Cascades {
  import opened Wrappers
  import opened Graphs

  type ViewId = nat
  type RelId = nat

  datatype Target = Fragment(labels: set<string>) | View(view: ViewId)

  /**
   * A relationship field of a view: of a list, or of the one it finds first. One of relationship fragments leads to
   * their target, and has a maxDepth of 1.
   */
  datatype Relationship = Relationship(
    field: string, hop: Hop, maxDepth: nat, declaredReadOnly: bool, isCollection: bool, into: Target)

  datatype ViewModel = ViewModel(labels: set<string>, relationships: seq<RelId>)

  datatype Schema = Schema(views: seq<ViewModel>, rels: seq<Relationship>)

  predicate Known(schema: Schema, rels: seq<RelId>) {
    forall i | 0 <= i < |rels| :: rels[i] < |schema.rels|
  }

  predicate ValidSchema(schema: Schema) {
    && (forall v <- schema.views :: Known(schema, v.relationships))
    && (forall rel <- schema.rels :: rel.into.View? ==> rel.into.view < |schema.views|)
  }

  /** A list of fragments read over several hops is not the view's to write. */
  predicate ReadOnly(rel: Relationship) {
    rel.declaredReadOnly || MultiHop(rel)
  }

  predicate MultiHop(rel: Relationship) {
    rel.into.Fragment? && rel.maxDepth > 1
  }

  // ---- Termination

  function Count(path: seq<RelId>, r: RelId): nat {
    if path == [] then 0 else Count(path[..|path| - 1], r) + if path[|path| - 1] == r then 1 else 0
  }

  function LeftOf(schema: Schema, path: seq<RelId>, r: RelId): nat
    requires r < |schema.rels|
  {
    if Count(path, r) < schema.rels[r].maxDepth then schema.rels[r].maxDepth - Count(path, r) else 0
  }

  /** How many more steps the relationships before `upTo` may be taken below a path. */
  function Left(schema: Schema, path: seq<RelId>, upTo: nat): nat
    requires upTo <= |schema.rels|
  {
    if upTo == 0 then 0 else Left(schema, path, upTo - 1) + LeftOf(schema, path, upTo - 1)
  }

  function Measure(schema: Schema, path: seq<RelId>): nat {
    Left(schema, path, |schema.rels|)
  }

  /** Each step down takes one from the sum over the relationships, which is what ends the three recursions. */
  lemma {:induction false} StepTakesOne(schema: Schema, path: seq<RelId>, r: RelId, upTo: nat)
    requires r < |schema.rels| && Count(path, r) < schema.rels[r].maxDepth
    requires upTo <= |schema.rels|
    ensures Left(schema, path, upTo) == Left(schema, path + [r], upTo) + if r < upTo then 1 else 0
  {
    if upTo > 0 {
      StepTakesOne(schema, path, r, upTo - 1);
      assert (path + [r])[..|path|] == path;
    }
  }

  // ---- The cascade

  /** One step of a pattern: what it follows, the labels of the node it reaches, and the view that node must be of. */
  datatype PatternStep = PatternStep(hop: Hop, labels: set<string>, of: Target)

  type Pattern = seq<PatternStep>

  function LabelsOf(schema: Schema, into: Target): set<string>
    requires into.View? ==> into.view < |schema.views|
  {
    if into.View? then schema.views[into.view].labels else into.labels
  }

  function StepOf(schema: Schema, r: RelId): PatternStep
    requires ValidSchema(schema) && r < |schema.rels|
  {
    var rel := schema.rels[r];
    PatternStep(rel.hop, LabelsOf(schema, rel.into), rel.into)
  }

  /**
   * What the recursion meets, in its order: a relationship it follows, or one of a view into its own class that it
   * stops at, with the pattern that ends in the nodes either reaches and the relationships on the way to it.
   */
  datatype Visit =
    | Followed(way: seq<RelId>, pattern: Pattern)
    | Beyond(way: seq<RelId>, pattern: Pattern)

  function Visits(schema: Schema, view: ViewId, chain: Pattern, path: seq<RelId>, rels: seq<RelId>): seq<Visit>
    requires ValidSchema(schema) && Known(schema, rels)
    decreases Measure(schema, path), |rels|
  {
    if rels == [] then []
    else VisitsOf(schema, view, chain, path, rels[0]) + Visits(schema, view, chain, path, rels[1..])
  }

  function VisitsOf(schema: Schema, view: ViewId, chain: Pattern, path: seq<RelId>, r: RelId): seq<Visit>
    requires ValidSchema(schema) && r < |schema.rels|
    decreases Measure(schema, path), 0
  {
    var rel := schema.rels[r];
    var extended := chain + [StepOf(schema, r)];
    if ReadOnly(rel) then []
    else if Count(path, r) >= rel.maxDepth then
      if rel.into == View(view) then [Beyond(path + [r], extended)] else []
    else
      StepTakesOne(schema, path, r, |schema.rels|);
      [Followed(path + [r], extended)] + if rel.into.Fragment? then []
        else Visits(schema, rel.into.view, extended, path + [r], schema.views[rel.into.view].relationships)
  }

  function AllVisits(schema: Schema, view: ViewId): seq<Visit>
    requires ValidSchema(schema) && view < |schema.views|
  {
    Visits(schema, view, [], [], schema.views[view].relationships)
  }

  // ---- What it visits

  function PatternOf(schema: Schema, way: seq<RelId>): Pattern
    requires ValidSchema(schema) && Known(schema, way)
  {
    if way == [] then [] else [StepOf(schema, way[0])] + PatternOf(schema, way[1..])
  }

  /**
   * A way down the view's writable relationships, none taken more often than its maxDepth, as it goes on below `path`.
   */
  predicate Way(schema: Schema, view: ViewId, path: seq<RelId>, way: seq<RelId>)
    requires ValidSchema(schema) && view < |schema.views|
    decreases |way|
  {
    && way != []
    && way[0] in schema.views[view].relationships
    && var rel := schema.rels[way[0]];
      && !ReadOnly(rel)
      && Count(path, way[0]) < rel.maxDepth
      && (|way| > 1 ==> rel.into.View? && Way(schema, rel.into.view, path + [way[0]], way[1..]))
  }

  /** A way that goes one step further than such a way may: again into the view it stops at. */
  predicate WayBeyond(schema: Schema, view: ViewId, path: seq<RelId>, way: seq<RelId>)
    requires ValidSchema(schema) && view < |schema.views|
    decreases |way|
  {
    && way != []
    && way[0] in schema.views[view].relationships
    && var rel := schema.rels[way[0]];
      && !ReadOnly(rel)
      && rel.into.View?
      && if |way| == 1 then Count(path, way[0]) >= rel.maxDepth && rel.into.view == view
         else Count(path, way[0]) < rel.maxDepth && WayBeyond(schema, rel.into.view, path + [way[0]], way[1..])
  }

  lemma {:induction false} WaysAreOfRels(schema: Schema, view: ViewId, path: seq<RelId>, way: seq<RelId>)
    requires ValidSchema(schema) && view < |schema.views|
    requires Way(schema, view, path, way) || WayBeyond(schema, view, path, way)
    ensures Known(schema, way)
    decreases |way|
  {
    if |way| > 1 {
      WaysAreOfRels(schema, schema.rels[way[0]].into.view, path + [way[0]], way[1..]);
      assert way == [way[0]] + way[1..];
    }
  }

  // ---- The ways, told step by step

  /** A relationship a save writes: not declared read-only, and no list of fragments read over several hops. */
  predicate IsWritten(rel: Relationship) {
    !rel.declaredReadOnly && !(rel.into.Fragment? && rel.maxDepth > 1)
  }

  /** The view a way is at before its i-th relationship, where it is at one. */
  function ViewAt(schema: Schema, start: ViewId, way: seq<RelId>, i: nat): Option<ViewId>
    requires i < |way|
  {
    if i == 0 then Some(start)
    else if way[i - 1] < |schema.rels| && schema.rels[way[i - 1]].into.View? then
      Some(schema.rels[way[i - 1]].into.view)
    else None
  }

  /** The i-th relationship of a way is one of the view it is at, that a save writes. */
  predicate IsDeclared(schema: Schema, start: ViewId, way: seq<RelId>, i: nat)
    requires i < |way|
  {
    var view := ViewAt(schema, start, way, i);
    && view.Some? && view.value < |schema.views| && way[i] in schema.views[view.value].relationships
    && way[i] < |schema.rels| && IsWritten(schema.rels[way[i]])
  }

  /** And it has been taken less often than its maxDepth, on the path to the way and on the way. */
  predicate IsWithin(schema: Schema, path: seq<RelId>, way: seq<RelId>, i: nat)
    requires i < |way|
  {
    way[i] < |schema.rels| && multiset(path + way[..i])[way[i]] < schema.rels[way[i]].maxDepth
  }

  lemma {:induction false} CountIs(path: seq<RelId>, r: RelId)
    ensures Count(path, r) == multiset(path)[r]
  {
    if path != [] {
      CountIs(path[..|path| - 1], r);
      assert path == path[..|path| - 1] + [path[|path| - 1]];
    }
  }

  lemma DeclaredBelow(schema: Schema, start: ViewId, path: seq<RelId>, way: seq<RelId>, i: nat)
    requires ValidSchema(schema) && start < |schema.views| && |way| > 1 && i < |way| - 1
    requires way[0] < |schema.rels| && schema.rels[way[0]].into.View?
    ensures IsDeclared(schema, schema.rels[way[0]].into.view, way[1..], i) <==> IsDeclared(schema, start, way, i + 1)
    ensures IsWithin(schema, path + [way[0]], way[1..], i) <==> IsWithin(schema, path, way, i + 1)
    ensures ViewAt(schema, schema.rels[way[0]].into.view, way[1..], i) == ViewAt(schema, start, way, i + 1)
  {
    var into, rest := schema.rels[way[0]].into.view, way[1..];
    assert path + way[..i + 1] == path + [way[0]] + rest[..i] && rest[i] == way[i + 1];
    assert ViewAt(schema, into, rest, i) == ViewAt(schema, start, way, i + 1);
  }

  lemma FirstStep(schema: Schema, start: ViewId, path: seq<RelId>, way: seq<RelId>)
    requires ValidSchema(schema) && start < |schema.views| && way != []
    ensures IsDeclared(schema, start, way, 0)
      <==> way[0] in schema.views[start].relationships && !ReadOnly(schema.rels[way[0]])
    ensures IsDeclared(schema, start, way, 0) ==>
      (IsWithin(schema, path, way, 0) <==> Count(path, way[0]) < schema.rels[way[0]].maxDepth)
  {
    CountIs(path, way[0]);
    assert path + way[..0] == path;
  }

  lemma NoStepBelow(schema: Schema, start: ViewId, way: seq<RelId>)
    requires |way| > 1 && !(way[0] < |schema.rels| && schema.rels[way[0]].into.View?)
    ensures !IsDeclared(schema, start, way, 1)
  {
  }

  /** Each step of a way. */
  lemma {:induction false} WayIs(schema: Schema, start: ViewId, path: seq<RelId>, way: seq<RelId>)
    requires ValidSchema(schema) && start < |schema.views|
    ensures Way(schema, start, path, way) <==> way != [] && forall i: nat | i < |way| ::
      IsDeclared(schema, start, way, i) && IsWithin(schema, path, way, i)
    decreases |way|
  {
    if way != [] {
      FirstStep(schema, start, path, way);
      if |way| > 1 {
        if way[0] < |schema.rels| && schema.rels[way[0]].into.View? {
          WayIs(schema, schema.rels[way[0]].into.view, path + [way[0]], way[1..]);
          StepsBelow(schema, start, path, way);
        } else {
          NoStepBelow(schema, start, way);
        }
      }
    }
  }

  lemma StepsBelow(schema: Schema, start: ViewId, path: seq<RelId>, way: seq<RelId>)
    requires ValidSchema(schema) && start < |schema.views| && |way| > 1
    requires way[0] < |schema.rels| && schema.rels[way[0]].into.View?
    ensures var into, below := schema.rels[way[0]].into.view, path + [way[0]];
      (forall i: nat | i < |way| :: IsDeclared(schema, start, way, i) && IsWithin(schema, path, way, i)) <==>
        && IsDeclared(schema, start, way, 0) && IsWithin(schema, path, way, 0)
        && forall i: nat | i < |way[1..]| ::
             IsDeclared(schema, into, way[1..], i) && IsWithin(schema, below, way[1..], i)
  {
    var into, below := schema.rels[way[0]].into.view, path + [way[0]];
    forall i: nat | i < |way| - 1
      ensures IsDeclared(schema, into, way[1..], i) <==> IsDeclared(schema, start, way, i + 1)
      ensures IsWithin(schema, below, way[1..], i) <==> IsWithin(schema, path, way, i + 1)
    {
      DeclaredBelow(schema, start, path, way, i);
    }
    if forall i: nat | i < |way[1..]| :: IsDeclared(schema, into, way[1..], i) && IsWithin(schema, below, way[1..], i) {
      forall i: nat | 0 < i < |way|
        ensures IsDeclared(schema, start, way, i) && IsWithin(schema, path, way, i)
      {
        assert IsDeclared(schema, into, way[1..], i - 1) && IsWithin(schema, below, way[1..], i - 1);
      }
    }
  }

  /** A way's last relationship is of a view into its own class, and is taken as often as it may be. */
  predicate StopsAt(schema: Schema, start: ViewId, path: seq<RelId>, way: seq<RelId>)
    requires way != []
  {
    var last := |way| - 1;
    && way[last] < |schema.rels| && !IsWithin(schema, path, way, last)
    && schema.rels[way[last]].into.View?
    && ViewAt(schema, start, way, last) == Some(schema.rels[way[last]].into.view)
  }

  /**
   * And of a way one step too far: the last is a relationship of a view into its own class, taken as often as it may.
   */
  lemma {:induction false} WayBeyondIs(schema: Schema, start: ViewId, path: seq<RelId>, way: seq<RelId>)
    requires ValidSchema(schema) && start < |schema.views|
    ensures WayBeyond(schema, start, path, way) <==>
      && way != [] && (forall i: nat | i < |way| :: IsDeclared(schema, start, way, i))
      && (forall i: nat | i < |way| - 1 :: IsWithin(schema, path, way, i))
      && StopsAt(schema, start, path, way)
    decreases |way|
  {
    if way != [] {
      FirstStep(schema, start, path, way);
      if |way| > 1 {
        if way[0] < |schema.rels| && schema.rels[way[0]].into.View? {
          WayBeyondIs(schema, schema.rels[way[0]].into.view, path + [way[0]], way[1..]);
          BeyondBelow(schema, start, path, way);
        } else {
          NoStepBelow(schema, start, way);
        }
      }
    }
  }

  lemma BeyondBelow(schema: Schema, start: ViewId, path: seq<RelId>, way: seq<RelId>)
    requires ValidSchema(schema) && start < |schema.views| && |way| > 1
    requires way[0] < |schema.rels| && schema.rels[way[0]].into.View?
    ensures var into, below := schema.rels[way[0]].into.view, path + [way[0]];
      && ((forall i: nat | i < |way| :: IsDeclared(schema, start, way, i)) <==>
            && IsDeclared(schema, start, way, 0)
            && forall i: nat | i < |way[1..]| :: IsDeclared(schema, into, way[1..], i))
      && ((forall i: nat | i < |way| - 1 :: IsWithin(schema, path, way, i)) <==>
            && IsWithin(schema, path, way, 0)
            && forall i: nat | i < |way[1..]| - 1 :: IsWithin(schema, below, way[1..], i))
      && (StopsAt(schema, start, path, way) <==> StopsAt(schema, into, below, way[1..]))
  {
    AllDeclaredBelow(schema, start, path, way);
    AllWithinBelow(schema, start, path, way);
    StopsBelow(schema, start, path, way);
  }

  lemma AllDeclaredBelow(schema: Schema, start: ViewId, path: seq<RelId>, way: seq<RelId>)
    requires ValidSchema(schema) && start < |schema.views| && |way| > 1
    requires way[0] < |schema.rels| && schema.rels[way[0]].into.View?
    ensures (forall i: nat | i < |way| :: IsDeclared(schema, start, way, i)) <==>
      && IsDeclared(schema, start, way, 0)
      && forall i: nat | i < |way[1..]| :: IsDeclared(schema, schema.rels[way[0]].into.view, way[1..], i)
  {
    var into, rest := schema.rels[way[0]].into.view, way[1..];
    forall i: nat | i < |rest| ensures IsDeclared(schema, into, rest, i) <==> IsDeclared(schema, start, way, i + 1) {
      DeclaredBelow(schema, start, path, way, i);
    }
    if forall i: nat | i < |rest| :: IsDeclared(schema, into, rest, i) {
      forall i: nat | 0 < i < |way| ensures IsDeclared(schema, start, way, i) {
        assert IsDeclared(schema, into, rest, i - 1);
      }
    }
  }

  lemma AllWithinBelow(schema: Schema, start: ViewId, path: seq<RelId>, way: seq<RelId>)
    requires ValidSchema(schema) && start < |schema.views| && |way| > 1
    requires way[0] < |schema.rels| && schema.rels[way[0]].into.View?
    ensures (forall i: nat | i < |way| - 1 :: IsWithin(schema, path, way, i)) <==>
      && IsWithin(schema, path, way, 0)
      && forall i: nat | i < |way[1..]| - 1 :: IsWithin(schema, path + [way[0]], way[1..], i)
  {
    var below, rest := path + [way[0]], way[1..];
    forall i: nat | i < |rest| ensures IsWithin(schema, below, rest, i) <==> IsWithin(schema, path, way, i + 1) {
      DeclaredBelow(schema, start, path, way, i);
    }
    if forall i: nat | i < |rest| - 1 :: IsWithin(schema, below, rest, i) {
      forall i: nat | 0 < i < |way| - 1 ensures IsWithin(schema, path, way, i) {
        assert IsWithin(schema, below, rest, i - 1);
      }
    }
  }

  lemma StopsBelow(schema: Schema, start: ViewId, path: seq<RelId>, way: seq<RelId>)
    requires ValidSchema(schema) && start < |schema.views| && |way| > 1
    requires way[0] < |schema.rels| && schema.rels[way[0]].into.View?
    ensures StopsAt(schema, start, path, way) <==>
      StopsAt(schema, schema.rels[way[0]].into.view, path + [way[0]], way[1..])
  {
    DeclaredBelow(schema, start, path, way, |way| - 2);
  }

  /** What a visit below `path` is, with its pattern: the chain so far, then a step for each relationship of its way. */
  ghost predicate IsVisit(schema: Schema, view: ViewId, chain: Pattern, path: seq<RelId>, v: Visit)
    requires ValidSchema(schema) && view < |schema.views|
  {
    && path <= v.way
    && var way := v.way[|path|..];
      && (if v.Followed? then Way(schema, view, path, way) else WayBeyond(schema, view, path, way))
      && Known(schema, way)
      && v.pattern == chain + PatternOf(schema, way)
  }

  lemma PatternGrows(schema: Schema, chain: Pattern, r: RelId, rest: seq<RelId>)
    requires ValidSchema(schema) && r < |schema.rels|
    ensures Known(schema, [r] + rest) <==> Known(schema, rest)
    ensures Known(schema, rest) ==>
      chain + PatternOf(schema, [r] + rest) == chain + [StepOf(schema, r)] + PatternOf(schema, rest)
  {
    assert ([r] + rest)[1..] == rest;
    if Known(schema, [r] + rest) {
      assert forall i | 0 <= i < |rest| :: ([r] + rest)[i + 1] == rest[i];
    }
  }

  lemma Deeper(schema: Schema, view: ViewId, chain: Pattern, path: seq<RelId>, r: RelId, v: Visit)
    requires ValidSchema(schema) && view < |schema.views| && r in schema.views[view].relationships
    requires path + [r] < v.way && !ReadOnly(schema.rels[r]) && schema.rels[r].into.View?
    requires Count(path, r) < schema.rels[r].maxDepth
    ensures IsVisit(schema, schema.rels[r].into.view, chain + [StepOf(schema, r)], path + [r], v)
      <==> IsVisit(schema, view, chain, path, v)
  {
    var way, rest := v.way[|path|..], v.way[|path + [r]|..];
    assert way == [r] + rest && way[1..] == rest && |rest| > 0;
    PatternGrows(schema, chain, r, rest);
    assert path <= v.way;
    assert Way(schema, view, path, way) <==> Way(schema, schema.rels[r].into.view, path + [r], rest);
    assert WayBeyond(schema, view, path, way) <==> WayBeyond(schema, schema.rels[r].into.view, path + [r], rest);
  }

  lemma {:induction false} VisitsOfAre(
      schema: Schema, view: ViewId, chain: Pattern, path: seq<RelId>, r: RelId, v: Visit)
    requires ValidSchema(schema) && view < |schema.views| && r in schema.views[view].relationships
    ensures v in VisitsOf(schema, view, chain, path, r)
      <==> IsVisit(schema, view, chain, path, v) && path + [r] <= v.way
    decreases Measure(schema, path), 0
  {
    var rel := schema.rels[r];
    if path + [r] == v.way {
      assert v.way[|path|..] == [r];
      assert PatternOf(schema, [r]) == [StepOf(schema, r)];
    }
    if !ReadOnly(rel) && Count(path, r) < rel.maxDepth && rel.into.View? {
      StepTakesOne(schema, path, r, |schema.rels|);
      VisitsAre(schema, rel.into.view, chain + [StepOf(schema, r)], path + [r],
        schema.views[rel.into.view].relationships, v);
      if path + [r] < v.way {
        Deeper(schema, view, chain, path, r, v);
      }
    }
  }

  lemma {:induction false} VisitsAre(
      schema: Schema, view: ViewId, chain: Pattern, path: seq<RelId>, rels: seq<RelId>, v: Visit)
    requires ValidSchema(schema) && view < |schema.views| && forall r <- rels :: r in schema.views[view].relationships
    requires Known(schema, rels)
    ensures v in Visits(schema, view, chain, path, rels)
      <==> IsVisit(schema, view, chain, path, v) && |v.way| > |path| && v.way[|path|] in rels
    decreases Measure(schema, path), |rels|
  {
    if rels != [] {
      VisitsOfAre(schema, view, chain, path, rels[0], v);
      VisitsAre(schema, view, chain, path, rels[1..], v);
      assert rels == [rels[0]] + rels[1..];
    }
  }

  // ---- What a pattern matches

  /** A graph, and which of its nodes meet what a view requires of its root. */
  datatype Store = Store(g: Graph, meets: (ViewId, NodeId) -> bool)

  /** One step taken in the graph: the relationship it follows and the node it reaches. */
  datatype Link = Link(edge: EdgeId, node: NodeId)

  predicate Takes(store: Store, from: NodeId, step: PatternStep, link: Link) {
    && link.edge in store.g.edges
    && link.node in store.g.nodes
    && Steps(store.g.edges[link.edge], from, step.hop, link.node)
    && step.labels <= store.g.nodes[link.node].labels
    && (step.of.View? ==> store.meets(step.of.view, link.node))
  }

  predicate Fits(store: Store, from: NodeId, pattern: Pattern, links: seq<Link>)
    decreases |links|
  {
    if pattern == [] || links == [] then pattern == [] && links == []
    else Takes(store, from, pattern[0], links[0]) && Fits(store, links[0].node, pattern[1..], links[1..])
  }

  /** A relationship and the node at its end fit a step: of its type and direction, the node of its labels and view. */
  predicate IsStep(store: Store, from: NodeId, step: PatternStep, link: Link) {
    && link.edge in store.g.edges && link.node in store.g.nodes
    && var e := store.g.edges[link.edge];
    && e.kind == step.hop.kind
    && (match step.hop.direction
        case Outgoing => e.src == from && e.dst == link.node
        case Incoming => e.src == link.node && e.dst == from
        case Undirected => {e.src, e.dst} == {from, link.node})
    && (forall it <- step.labels :: it in store.g.nodes[link.node].labels)
    && match step.of case View(view) => store.meets(view, link.node) case Fragment(_) => true
  }

  /** A pattern fits links if and only if each step fits the link at its place, from the node before. */
  lemma {:induction false} FitsIs(store: Store, from: NodeId, pattern: Pattern, links: seq<Link>)
    ensures Fits(store, from, pattern, links) <==>
      && |pattern| == |links|
      && forall k: nat {:trigger links[k]} | k < |links| ::
           IsStep(store, if k == 0 then from else links[k - 1].node, pattern[k], links[k])
    decreases |links|
  {
    if pattern != [] && links != [] {
      FitsIs(store, links[0].node, pattern[1..], links[1..]);
      assert Takes(store, from, pattern[0], links[0]) <==> IsStep(store, from, pattern[0], links[0]);
      assert forall k: nat | k < |links| - 1 :: links[1..][k] == links[k + 1];
      forall k: nat | 0 < k < |links| && |pattern| == |links|
        ensures IsStep(store, links[k - 1].node, pattern[k], links[k]) <==>
          IsStep(
            store, if k - 1 == 0 then links[0].node else links[1..][k - 2].node, pattern[1..][k - 1], links[1..][k - 1])
      {
      }
    }
  }

  predicate NoEdgeTwice(links: seq<Link>) {
    forall i, j | 0 <= i < j < |links| :: links[i].edge != links[j].edge
  }

  predicate Uses(links: seq<Link>, edge: EdgeId) {
    exists i | 0 <= i < |links| :: links[i].edge == edge
  }

  function EndOf(from: NodeId, links: seq<Link>): NodeId {
    if links == [] then from else links[|links| - 1].node
  }

  /** The node is one the pattern's list holds. A pattern takes no stored relationship twice. */
  ghost predicate Reaches(store: Store, root: NodeId, pattern: Pattern, n: NodeId) {
    exists links :: Fits(store, root, pattern, links) && NoEdgeTwice(links) && EndOf(root, links) == n
  }

  /** The relationships a way of the cascade takes in the graph. */
  ghost predicate Taken(schema: Schema, store: Store, start: ViewId, root: NodeId, way: seq<RelId>, links: seq<Link>)
    requires ValidSchema(schema) && start < |schema.views|
  {
    && Way(schema, start, [], way)
    && Known(schema, way)
    && Fits(store, root, PatternOf(schema, way), links)
    && NoEdgeTwice(links)
  }

  lemma {:induction false} FitsAreAsLong(store: Store, from: NodeId, p: Pattern, links: seq<Link>)
    requires Fits(store, from, p, links)
    ensures |p| == |links|
    decreases |links|
  {
    if p != [] && links != [] {
      FitsAreAsLong(store, links[0].node, p[1..], links[1..]);
    }
  }

  lemma {:induction false} PatternIsAsLong(schema: Schema, way: seq<RelId>)
    requires ValidSchema(schema) && Known(schema, way)
    ensures |PatternOf(schema, way)| == |way|
  {
    if way != [] {
      PatternIsAsLong(schema, way[1..]);
    }
  }

  lemma {:induction false} FitsAt(schema: Schema, store: Store, root: NodeId, way: seq<RelId>, links: seq<Link>, j: nat)
    requires ValidSchema(schema) && Known(schema, way) && Fits(store, root, PatternOf(schema, way), links)
    requires j < |way|
    ensures |links| == |way|
    ensures Takes(store, if j == 0 then root else links[j - 1].node, StepOf(schema, way[j]), links[j])
    decreases j
  {
    FitsAreAsLong(store, root, PatternOf(schema, way), links);
    PatternIsAsLong(schema, way);
    if j > 0 {
      FitsAt(schema, store, links[0].node, way[1..], links[1..], j - 1);
    }
  }

  // ---- What loading the view loads

  /** A loaded view: its root, and what each of its fields that is read a relationship at a time holds. */
  datatype Tree = Tree(node: NodeId, fields: map<RelId, set<Item>>)

  datatype Item = Item(edge: EdgeId, tree: Tree)

  /**
   * What the list behind a field of one node begins with, by the relationships down to the field and the links taken to
   * the node it is read from. An engine lists the matches of a pattern in an order of its own, each time it reads one.
   */
  type Firsts = (seq<RelId>, seq<Link>) -> Link

  /** What is loaded of a view at a node, which these relationships and links lead to. */
  function Load(
      schema: Schema, store: Store, firsts: Firsts, view: ViewId, n: NodeId, path: seq<RelId>, trail: seq<Link>): Tree
    requires ValidSchema(schema) && view < |schema.views|
    decreases Measure(schema, path), 1
  {
    Tree(n, map r | r in schema.views[view].relationships && !MultiHop(schema.rels[r])
      :: Items(schema, store, firsts, r, n, path, trail))
  }

  /** Whether a field holds a match: a list holds each, a field of one node the head of them. */
  predicate IsRead(schema: Schema, firsts: Firsts, r: RelId, path: seq<RelId>, trail: seq<Link>, link: Link)
    requires r < |schema.rels|
  {
    schema.rels[r].isCollection || firsts(path + [r], trail) == link
  }

  function Items(
      schema: Schema, store: Store, firsts: Firsts, r: RelId, n: NodeId, path: seq<RelId>, trail: seq<Link>): set<Item>
    requires ValidSchema(schema) && r < |schema.rels|
    decreases Measure(schema, path), 0
  {
    var rel := schema.rels[r];
    if Count(path, r) >= rel.maxDepth then {}
    else
      StepTakesOne(schema, path, r, |schema.rels|);
      set e, b | e in store.g.edges && b in store.g.nodes && Takes(store, n, StepOf(schema, r), Link(e, b))
                 && IsRead(schema, firsts, r, path, trail, Link(e, b))
        :: Item(e, Below(schema, store, firsts, rel.into, b, path + [r], trail + [Link(e, b)]))
  }

  function Below(
      schema: Schema, store: Store, firsts: Firsts, into: Target, n: NodeId, path: seq<RelId>, trail: seq<Link>)
      : (tree: Tree)
    requires ValidSchema(schema) && (into.View? ==> into.view < |schema.views|)
    ensures tree.node == n
    decreases Measure(schema, path), 2
  {
    if into.View? then Load(schema, store, firsts, into.view, n, path, trail) else Tree(n, map[])
  }

  /** A path down a loaded view through fields a save writes. */
  predicate TreePath(schema: Schema, tree: Tree, way: seq<RelId>, links: seq<Link>)
    decreases |way|
  {
    if way == [] || links == [] then way == [] && links == []
    else
      && way[0] < |schema.rels| && !ReadOnly(schema.rels[way[0]])
      && way[0] in tree.fields
      && exists it <- tree.fields[way[0]] ::
           && it.edge == links[0].edge && it.tree.node == links[0].node
           && TreePath(schema, it.tree, way[1..], links[1..])
  }

  lemma ItemIs(
      schema: Schema, store: Store, firsts: Firsts, r: RelId, n: NodeId, path: seq<RelId>, trail: seq<Link>, link: Link,
      it: Item)
    requires ValidSchema(schema) && r < |schema.rels| && Count(path, r) < schema.rels[r].maxDepth
    ensures it in Items(schema, store, firsts, r, n, path, trail) && it.edge == link.edge && it.tree.node == link.node
      <==> (Takes(store, n, StepOf(schema, r), link) && IsRead(schema, firsts, r, path, trail, link)
            && it == Item(link.edge,
                 Below(schema, store, firsts, schema.rels[r].into, link.node, path + [r], trail + [link])))
  {
    assert link == Link(link.edge, link.node);
  }

  /** Every step of a way is one its field holds. */
  predicate AllRead(
      schema: Schema, firsts: Firsts, path: seq<RelId>, trail: seq<Link>, way: seq<RelId>, links: seq<Link>)
    requires Known(schema, way)
    decreases |way|
  {
    way != [] && links != [] ==>
      && IsRead(schema, firsts, way[0], path, trail, links[0])
      && AllRead(schema, firsts, path + [way[0]], trail + [links[0]], way[1..], links[1..])
  }

  /** The paths of a load are the ways, along relationships that fit their steps and that the fields on them hold. */
  lemma {:induction false} PathsAreWays(
      schema: Schema, store: Store, firsts: Firsts, view: ViewId, n: NodeId, path: seq<RelId>, trail: seq<Link>,
      way: seq<RelId>, links: seq<Link>)
    requires ValidSchema(schema) && view < |schema.views| && way != []
    ensures TreePath(schema, Load(schema, store, firsts, view, n, path, trail), way, links)
      <==> Way(schema, view, path, way) && Known(schema, way) && Fits(store, n, PatternOf(schema, way), links)
           && AllRead(schema, firsts, path, trail, way, links)
    decreases |way|
  {
    if links != [] && way[0] in schema.views[view].relationships && !ReadOnly(schema.rels[way[0]]) {
      var r, link, rest := way[0], links[0], way[1..];
      assert way == [r] + rest;
      FitsStep(schema, store, n, r, rest, links);
      if Count(path, r) < schema.rels[r].maxDepth {
        FieldPath(schema, store, firsts, view, n, path, trail, way, links);
        var into := schema.rels[r].into;
        if into.View? && rest != [] {
          PathsAreWays(schema, store, firsts, into.view, link.node, path + [r], trail + [link], rest, links[1..]);
        }
      }
    }
  }

  lemma FitsStep(schema: Schema, store: Store, n: NodeId, r: RelId, rest: seq<RelId>, links: seq<Link>)
    requires ValidSchema(schema) && r < |schema.rels| && links != []
    ensures Known(schema, [r] + rest) <==> Known(schema, rest)
    ensures Known(schema, rest) ==>
      (Fits(store, n, PatternOf(schema, [r] + rest), links) <==>
       (Takes(store, n, StepOf(schema, r), links[0])
           && Fits(store, links[0].node, PatternOf(schema, rest), links[1..])))
  {
    PatternGrows(schema, [], r, rest);
  }

  lemma FieldPath(
      schema: Schema, store: Store, firsts: Firsts, view: ViewId, n: NodeId, path: seq<RelId>, trail: seq<Link>,
      way: seq<RelId>, links: seq<Link>)
    requires ValidSchema(schema) && view < |schema.views| && way != [] && links != []
    requires way[0] in schema.views[view].relationships && !ReadOnly(schema.rels[way[0]])
    requires Count(path, way[0]) < schema.rels[way[0]].maxDepth
    ensures TreePath(schema, Load(schema, store, firsts, view, n, path, trail), way, links)
      <==> (Takes(store, n, StepOf(schema, way[0]), links[0]) && IsRead(schema, firsts, way[0], path, trail, links[0])
            && TreePath(schema,
                 Below(schema, store, firsts, schema.rels[way[0]].into, links[0].node, path + [way[0]],
                       trail + [links[0]]),
                 way[1..], links[1..]))
  {
    var r, link := way[0], links[0];
    var items := Load(schema, store, firsts, view, n, path, trail).fields[r];
    var found := Item(link.edge,
      Below(schema, store, firsts, schema.rels[r].into, link.node, path + [r], trail + [link]));
    assert items == Items(schema, store, firsts, r, n, path, trail);
    forall it: Item ensures it in items && it.edge == link.edge && it.tree.node == link.node
      <==> (Takes(store, n, StepOf(schema, r), link) && IsRead(schema, firsts, r, path, trail, link) && it == found)
    {
      ItemIs(schema, store, firsts, r, n, path, trail, link, it);
    }
    assert Takes(store, n, StepOf(schema, r), link) && IsRead(schema, firsts, r, path, trail, link) ==> found in items;
  }

  /** A node the list of what a cascade reaches holds. */
  ghost predicate InTargets(schema: Schema, store: Store, view: ViewId, root: NodeId, n: NodeId)
    requires ValidSchema(schema) && view < |schema.views|
  {
    exists v <- AllVisits(schema, view) :: v.Followed? && Reaches(store, root, v.pattern, n)
  }

  /** The recursion as a whole meets exactly the ways down the view, and those one step too far. */
  lemma AllVisitsAre(schema: Schema, view: ViewId, v: Visit)
    requires ValidSchema(schema) && view < |schema.views|
    ensures v in AllVisits(schema, view)
      <==> ((if v.Followed? then Way(schema, view, [], v.way) else WayBeyond(schema, view, [], v.way))
            && Known(schema, v.way) && v.pattern == PatternOf(schema, v.way))
  {
    VisitsAre(schema, view, [], [], schema.views[view].relationships, v);
    assert v.way[0..] == v.way;
    if Known(schema, v.way) {
      assert [] + PatternOf(schema, v.way) == PatternOf(schema, v.way);
    }
  }

  /** A target is the end of a way the cascade takes. */
  lemma TargetsAreTaken(schema: Schema, store: Store, view: ViewId, root: NodeId, n: NodeId)
    requires ValidSchema(schema) && view < |schema.views|
    ensures InTargets(schema, store, view, root, n)
      <==> exists way, links :: Taken(schema, store, view, root, way, links) && EndOf(root, links) == n
  {
    if InTargets(schema, store, view, root, n) {
      var v :| v in AllVisits(schema, view) && v.Followed? && Reaches(store, root, v.pattern, n);
      AllVisitsAre(schema, view, v);
      var links :| Fits(store, root, v.pattern, links) && NoEdgeTwice(links) && EndOf(root, links) == n;
      assert Taken(schema, store, view, root, v.way, links);
    }
    if way, links :| Taken(schema, store, view, root, way, links) && EndOf(root, links) == n {
      AllVisitsAre(schema, view, Followed(way, PatternOf(schema, way)));
      assert Reaches(store, root, PatternOf(schema, way), n);
    }
  }

  // ---- What saving the view writes

  /** A part of a save's statement: the rows of one relationship, with the parts its targets' rows nest. */
  datatype WritePart = WritePart(rel: RelId, children: seq<WritePart>)

  function WriteParts(schema: Schema, path: seq<RelId>, rels: seq<RelId>): seq<WritePart>
    requires ValidSchema(schema) && Known(schema, rels)
    decreases Measure(schema, path), |rels|
  {
    if rels == [] then []
    else
      var r, rel := rels[0], schema.rels[rels[0]];
      var rest := WriteParts(schema, path, rels[1..]);
      if ReadOnly(rel) || Count(path, r) >= rel.maxDepth then rest
      else
        StepTakesOne(schema, path, r, |schema.rels|);
        var children := if rel.into.Fragment? then []
          else WriteParts(schema, path + [r], schema.views[rel.into.view].relationships);
        [WritePart(r, children)] + rest
  }

  /** The relationships of a part and of those nested in it, down to one. */
  predicate PartWay(parts: seq<WritePart>, way: seq<RelId>)
    decreases |way|
  {
    way != [] && exists part <- parts :: part.rel == way[0] && (|way| == 1 || PartWay(part.children, way[1..]))
  }

  function PartOf(schema: Schema, path: seq<RelId>, r: RelId): WritePart
    requires ValidSchema(schema) && r < |schema.rels| && Count(path, r) < schema.rels[r].maxDepth
  {
    WritePart(r, if schema.rels[r].into.Fragment? then []
                 else WriteParts(schema, path + [r], schema.views[schema.rels[r].into.view].relationships))
  }

  lemma {:induction false} PartsOfRels(schema: Schema, path: seq<RelId>, rels: seq<RelId>, part: WritePart)
    requires ValidSchema(schema) && Known(schema, rels)
    ensures part in WriteParts(schema, path, rels) <==>
      && part.rel in rels
      && !ReadOnly(schema.rels[part.rel]) && Count(path, part.rel) < schema.rels[part.rel].maxDepth
      && part == PartOf(schema, path, part.rel)
    decreases |rels|
  {
    if rels != [] {
      PartsOfRels(schema, path, rels[1..], part);
      assert rels == [rels[0]] + rels[1..];
    }
  }

  /** A save writes down the same ways as a cascade deletes, each as deep: what it can reach, it can take back. */
  lemma {:induction false} SaveGoesTheSameWays(schema: Schema, view: ViewId, path: seq<RelId>, way: seq<RelId>)
    requires ValidSchema(schema) && view < |schema.views|
    ensures PartWay(WriteParts(schema, path, schema.views[view].relationships), way) <==> Way(schema, view, path, way)
    decreases |way|
  {
    if way != [] {
      var rels := schema.views[view].relationships;
      var r := way[0];
      forall part: WritePart ensures part in WriteParts(schema, path, rels) && part.rel == r ==>
        r in rels && !ReadOnly(schema.rels[r]) && Count(path, r) < schema.rels[r].maxDepth
            && part == PartOf(schema, path, r)
      {
        PartsOfRels(schema, path, rels, part);
      }
      if r in rels && !ReadOnly(schema.rels[r]) && Count(path, r) < schema.rels[r].maxDepth {
        PartsOfRels(schema, path, rels, PartOf(schema, path, r));
        if |way| > 1 && schema.rels[r].into.View? {
          SaveGoesTheSameWays(schema, schema.rels[r].into.view, path + [r], way[1..]);
        }
      }
    }
  }
}
