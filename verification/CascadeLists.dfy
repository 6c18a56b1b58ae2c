/**
 * The builder of a cascade's lists (src/backend/CascadeTargets.ts:56-136): it fills the lists of the relationships it
 * follows, of the depth checks and of the views it reaches as it goes down a view.
 */
module CascadeLists {
  import opened Graphs
  import opened Cascades

  /**
   * A relationship of a view into its own class, the nodes one level below its maxDepth, and those the cascade takes.
   */
  datatype DepthCheck = DepthCheck(view: ViewId, rel: RelId, nodes: Pattern, within: seq<Pattern>)

  datatype State = State(
    followed: seq<RelId>, beyond: seq<DepthCheck>, beyondViews: seq<ViewId>, views: map<ViewId, seq<Pattern>>)

  const EMPTY := State([], [], [], map[])

  function Last(way: seq<RelId>): RelId {
    if way == [] then 0 else way[|way| - 1]
  }

  function ListsOf(views: map<ViewId, seq<Pattern>>, view: ViewId): seq<Pattern> {
    if view in views then views[view] else []
  }

  /** What one visit adds. */
  function Noted(schema: Schema, s: State, v: Visit): State {
    var into := if Last(v.way) < |schema.rels| then schema.rels[Last(v.way)].into else Fragment({});
    if v.Beyond? then
      if into.View? then
        s.(beyond := s.beyond + [DepthCheck(into.view, Last(v.way), v.pattern, [])],
           beyondViews := s.beyondViews + [into.view])
      else s
    else
      s.(followed := s.followed + [Last(v.way)],
         views := if into.View? then s.views[into.view := ListsOf(s.views, into.view) + [v.pattern]] else s.views)
  }

  function After(schema: Schema, s: State, vs: seq<Visit>): State
  {
    if vs == [] then s else Noted(schema, After(schema, s, vs[..|vs| - 1]), vs[|vs| - 1])
  }

  function Lists(vs: seq<Visit>): seq<Pattern> {
    if vs == [] then [] else Lists(vs[..|vs| - 1]) + if vs[|vs| - 1].Followed? then [vs[|vs| - 1].pattern] else []
  }

  lemma {:induction false} AfterBoth(schema: Schema, s: State, a: seq<Visit>, b: seq<Visit>)
    ensures After(schema, s, a + b) == After(schema, After(schema, s, a), b)
    ensures Lists(a + b) == Lists(a) + Lists(b)
    decreases |b|
  {
    if b == [] {
      assert a + b == a;
    } else {
      AfterBoth(schema, s, a, b[..|b| - 1]);
      assert (a + b)[..|a + b| - 1] == a + b[..|b| - 1];
    }
  }

  lemma OneVisit(schema: Schema, s: State, v: Visit)
    ensures After(schema, s, [v]) == Noted(schema, s, v)
    ensures Lists([v]) == if v.Followed? then [v.pattern] else []
  {
    assert [v][..0] == [];
  }

  lemma {:induction false} VisitsSnoc(
      schema: Schema, view: ViewId, chain: Pattern, path: seq<RelId>, rels: seq<RelId>, r: RelId)
    requires ValidSchema(schema) && Known(schema, rels) && r < |schema.rels|
    ensures Visits(schema, view, chain, path, rels + [r])
      == Visits(schema, view, chain, path, rels) + VisitsOf(schema, view, chain, path, r)
    decreases |rels|
  {
    if rels == [] {
      assert Visits(schema, view, chain, path, [r][1..]) == [];
    } else {
      VisitsSnoc(schema, view, chain, path, rels[1..], r);
      assert (rels + [r])[1..] == rels[1..] + [r];
    }
  }

  lemma OneMore(schema: Schema, s: State, view: ViewId, chain: Pattern, path: seq<RelId>, rels: seq<RelId>, i: nat)
    requires ValidSchema(schema) && Known(schema, rels) && i < |rels|
    ensures var before, more, all := Visits(schema, view, chain, path, rels[..i]),
        VisitsOf(schema, view, chain, path, rels[i]), Visits(schema, view, chain, path, rels[..i + 1]);
      Lists(all) == Lists(before) + Lists(more)
          && After(schema, s, all) == After(schema, After(schema, s, before), more)
  {
    assert rels[..i + 1] == rels[..i] + [rels[i]];
    VisitsSnoc(schema, view, chain, path, rels[..i], rels[i]);
    AfterBoth(schema, s, Visits(schema, view, chain, path, rels[..i]), VisitsOf(schema, view, chain, path, rels[i]));
  }

  // ---- The hops a node is held by

  function HopsOf(schema: Schema, followed: seq<RelId>): seq<Hop>
    requires Known(schema, followed)
  {
    seq(|followed|, i requires 0 <= i < |followed| => schema.rels[followed[i]].hop)
  }

  /** Each type and direction, where it is first followed. */
  function Once(hops: seq<Hop>): seq<Hop> {
    if hops == [] then []
    else
      var before := Once(hops[..|hops| - 1]);
      if hops[|hops| - 1] in before then before else before + [hops[|hops| - 1]]
  }

  lemma {:induction false} OnceHoldsEach(hops: seq<Hop>)
    ensures forall i, j | 0 <= i < j < |Once(hops)| :: Once(hops)[i] != Once(hops)[j]
    ensures forall hop :: hop in Once(hops) <==> hop in hops
  {
    if hops != [] {
      OnceHoldsEach(hops[..|hops| - 1]);
      assert hops == hops[..|hops| - 1] + [hops[|hops| - 1]];
    }
  }

  // ---- The whole

  /** The lists of what a cascade reaches, its depth checks, and what a node is held by. */
  datatype Cascaded = Cascaded(targets: seq<Pattern>, beyond: seq<DepthCheck>, holders: seq<Hop>)

  predicate ValidState(schema: Schema, s: State) {
    Known(schema, s.followed) && |s.beyondViews| == |s.beyond|
  }

  function Filled(s: State): (r: seq<DepthCheck>)
    requires |s.beyondViews| == |s.beyond|
  {
    seq(|s.beyond|, i requires 0 <= i < |s.beyond| =>
      s.beyond[i].(within := s.beyond[i].within + ListsOf(s.views, s.beyondViews[i])))
  }

  lemma {:induction false} AfterIsValid(schema: Schema, s: State, vs: seq<Visit>)
    requires ValidState(schema, s) && forall v <- vs :: Last(v.way) < |schema.rels|
    ensures ValidState(schema, After(schema, s, vs))
  {
    if vs != [] {
      AfterIsValid(schema, s, vs[..|vs| - 1]);
      assert vs[|vs| - 1] in vs;
    }
  }

  lemma VisitsAreOfRels(schema: Schema, view: ViewId)
    requires ValidSchema(schema) && view < |schema.views|
    ensures forall v <- AllVisits(schema, view) :: v.way != [] && Last(v.way) < |schema.rels|
  {
    forall v <- AllVisits(schema, view) ensures v.way != [] && Last(v.way) < |schema.rels| {
      AllVisitsAre(schema, view, v);
    }
  }

  function CascadeFrom(schema: Schema, s: State, view: ViewId): Cascaded
    requires ValidSchema(schema) && view < |schema.views| && ValidState(schema, s)
  {
    var vs := AllVisits(schema, view);
    VisitsAreOfRels(schema, view);
    AfterIsValid(schema, s, vs);
    var end := After(schema, s, vs);
    Cascaded(Lists(vs), Filled(end), Once(HopsOf(schema, end.followed)))
  }

  // ---- The builder

  class CascadeTargets {
    const schema: Schema
    var followed: seq<RelId>
    var beyond: seq<DepthCheck>
    var beyondViews: seq<ViewId>
    var views: map<ViewId, seq<Pattern>>

    constructor (schema: Schema)
      ensures this.schema == schema && Now() == EMPTY
    {
      this.schema := schema;
      followed, beyond, beyondViews, views := [], [], [], map[];
    }

    function Now(): State
      reads this
    {
      State(followed, beyond, beyondViews, views)
    }

    /** Goes down a view: gives the lists of what it reaches, and notes each visit. */
    method View(view: ViewId, chain: Pattern, path: seq<RelId>) returns (lists: seq<Pattern>)
      requires ValidSchema(schema) && view < |schema.views|
      modifies this
      ensures var vs := Visits(schema, view, chain, path, schema.views[view].relationships);
        lists == Lists(vs) && Now() == After(schema, old(Now()), vs)
      decreases Measure(schema, path), 1
    {
      var rels := schema.views[view].relationships;
      lists := [];
      var i := 0;
      assert rels[..0] == [];
      while i < |rels|
        invariant 0 <= i <= |rels|
        invariant lists == Lists(Visits(schema, view, chain, path, rels[..i]))
        invariant Now() == After(schema, old(Now()), Visits(schema, view, chain, path, rels[..i]))
      {
        OneMore(schema, old(Now()), view, chain, path, rels, i);
        var reached := Relationship(view, chain, path, rels[i]);
        lists := lists + reached;
        i := i + 1;
      }
      assert rels[..i] == rels;
    }

    method Relationship(view: ViewId, chain: Pattern, path: seq<RelId>, r: RelId) returns (lists: seq<Pattern>)
      requires ValidSchema(schema) && view < |schema.views| && r < |schema.rels|
      modifies this
      ensures var vs := VisitsOf(schema, view, chain, path, r);
        lists == Lists(vs) && Now() == After(schema, old(Now()), vs)
      decreases Measure(schema, path), 0
    {
      var rel := schema.rels[r];
      if ReadOnly(rel) {
        return [];
      }
      var list := chain + [StepOf(schema, r)];
      if Count(path, r) >= rel.maxDepth {
        if rel.into == Target.View(view) {
          beyond := beyond + [DepthCheck(view, r, list, [])];
          beyondViews := beyondViews + [view];
          OneVisit(schema, old(Now()), Beyond(path + [r], list));
        }
        return [];
      }
      StepTakesOne(schema, path, r, |schema.rels|);
      OneVisit(schema, old(Now()), Followed(path + [r], list));
      followed := followed + [r];
      lists := [list];
      if rel.into.View? {
        views := views[rel.into.view := ListsOf(views, rel.into.view) + [list]];
        ghost var here := [Followed(path + [r], list)];
        assert Now() == After(schema, old(Now()), here);
        var below := View(rel.into.view, list, path + [r]);
        lists := lists + below;
        AfterBoth(schema, old(Now()), here,
          Visits(schema, rel.into.view, list, path + [r], schema.views[rel.into.view].relationships));
      }
    }

    /** What a cascade from a root of the view reaches. */
    method Cascade(view: ViewId) returns (r: Cascaded)
      requires ValidSchema(schema) && view < |schema.views| && ValidState(schema, Now())
      modifies this
      ensures ValidState(schema, Now()) && r == CascadeFrom(schema, old(Now()), view) && beyond == r.beyond
    {
      VisitsAreOfRels(schema, view);
      AfterIsValid(schema, Now(), AllVisits(schema, view));
      var lists := View(view, [], []);
      FillWithin();
      r := Cascaded(lists, beyond, Once(HopsOf(schema, followed)));
    }

    /** Gives each check the lists of the roots of its view. */
    method FillWithin()
      requires |beyondViews| == |beyond|
      modifies this`beyond
      ensures beyond == Filled(old(Now()))
    {
      ghost var was := Now();
      var i := 0;
      while i < |beyond|
        invariant 0 <= i <= |beyond| == |was.beyond|
        invariant forall j | 0 <= j < i :: beyond[j] == Filled(was)[j]
        invariant forall j | i <= j < |beyond| :: beyond[j] == was.beyond[j]
      {
        var it := beyond[i];
        beyond := beyond[i := it.(within := it.within + ListsOf(views, beyondViews[i]))];
        i := i + 1;
      }
    }
  }

  // ---- What the lists hold

  lemma {:induction false} ListsAre(vs: seq<Visit>, p: Pattern)
    ensures p in Lists(vs) <==> exists v <- vs :: v.Followed? && v.pattern == p
  {
    if vs != [] {
      ListsAre(vs[..|vs| - 1], p);
      assert vs == vs[..|vs| - 1] + [vs[|vs| - 1]];
    }
  }

  ghost predicate Into(schema: Schema, v: Visit, view: ViewId) {
    Last(v.way) < |schema.rels| && schema.rels[Last(v.way)].into == Target.View(view)
  }

  lemma {:induction false} ViewsAre(schema: Schema, vs: seq<Visit>, view: ViewId, p: Pattern)
    ensures p in ListsOf(After(schema, EMPTY, vs).views, view)
      <==> exists v <- vs :: v.Followed? && Into(schema, v, view) && v.pattern == p
  {
    if vs != [] {
      ViewsAre(schema, vs[..|vs| - 1], view, p);
      assert vs == vs[..|vs| - 1] + [vs[|vs| - 1]];
    }
  }

  lemma {:induction false} FollowedAre(schema: Schema, vs: seq<Visit>, r: RelId)
    ensures r in After(schema, EMPTY, vs).followed <==> exists v <- vs :: v.Followed? && Last(v.way) == r
  {
    if vs != [] {
      FollowedAre(schema, vs[..|vs| - 1], r);
      assert vs == vs[..|vs| - 1] + [vs[|vs| - 1]];
    }
  }

  /** The checks are of the views' relationships into their own class the recursion stops at, each for its own view. */
  lemma {:induction false} ChecksAre(schema: Schema, vs: seq<Visit>, view: ViewId, r: RelId, nodes: Pattern)
    ensures var s := After(schema, EMPTY, vs);
      && |s.beyond| == |s.beyondViews|
      && (forall i | 0 <= i < |s.beyond| :: s.beyond[i].within == [] && s.beyond[i].view == s.beyondViews[i])
      && (DepthCheck(view, r, nodes, []) in s.beyond
          <==> exists v <- vs :: v.Beyond? && Last(v.way) == r && Into(schema, v, view) && v.pattern == nodes)
  {
    if vs != [] {
      ChecksAre(schema, vs[..|vs| - 1], view, r, nodes);
      assert vs == vs[..|vs| - 1] + [vs[|vs| - 1]];
    }
  }

  /** The list the builder gives holds the ends of the patterns the recursion follows. */
  lemma ListHoldsTargets(schema: Schema, store: Store, view: ViewId, root: NodeId, n: NodeId)
    requires ValidSchema(schema) && view < |schema.views|
    ensures (exists p <- CascadeFrom(schema, EMPTY, view).targets :: Reaches(store, root, p, n))
      <==> InTargets(schema, store, view, root, n)
  {
    var vs := AllVisits(schema, view);
    if p :| p in Lists(vs) && Reaches(store, root, p, n) {
      ListsAre(vs, p);
    }
    if v :| v in vs && v.Followed? && Reaches(store, root, v.pattern, n) {
      ListsAre(vs, v.pattern);
    }
  }
}
