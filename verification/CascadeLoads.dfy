/**
 * What a cascade takes, beside what loading the view loads (src/backend/CascadeTargets.ts:46-55): the list holds every
 * match of a field of one node, of which a load holds the first (src/backend/ViewProjector.ts:124-136).
 */
module CascadeLoads {
  import opened Graphs
  import opened Cascades
  import opened CascadeLists

  ghost predicate HeadFits(
      schema: Schema, store: Store, root: NodeId, firsts: Firsts, path: seq<RelId>, r: RelId, trail: seq<Link>)
    requires ValidSchema(schema) && r < |schema.rels|
  {
    var from, step := EndOf(root, trail), StepOf(schema, r);
    (exists link :: Takes(store, from, step, link)) ==> Takes(store, from, step, firsts(path + [r], trail))
  }

  /** What an engine may list first: a match, wherever there is one. */
  ghost predicate AreFirsts(schema: Schema, store: Store, root: NodeId, firsts: Firsts)
    requires ValidSchema(schema)
  {
    forall path: seq<RelId>, r: RelId, trail: seq<Link> | r < |schema.rels| ::
      HeadFits(schema, store, root, firsts, path, r, trail)
  }

  ghost predicate IsLoaded(
      schema: Schema, store: Store, firsts: Firsts, view: ViewId, root: NodeId, way: seq<RelId>, links: seq<Link>)
    requires ValidSchema(schema) && view < |schema.views|
  {
    way != [] && TreePath(schema, Load(schema, store, firsts, view, root, [], []), way, links) && NoEdgeTwice(links)
  }

  /** A node at the end of a path of the load through what a save writes, on which no relationship is taken twice. */
  ghost predicate InLoad(schema: Schema, store: Store, firsts: Firsts, view: ViewId, root: NodeId, n: NodeId)
    requires ValidSchema(schema) && view < |schema.views|
  {
    exists way, links :: IsLoaded(schema, store, firsts, view, root, way, links) && EndOf(root, links) == n
  }

  /** A path of a load is a way the cascade takes, each step of which its field holds. */
  lemma LoadedIsTaken(
      schema: Schema, store: Store, firsts: Firsts, view: ViewId, root: NodeId, way: seq<RelId>, links: seq<Link>)
    requires ValidSchema(schema) && view < |schema.views|
    ensures IsLoaded(schema, store, firsts, view, root, way, links)
      <==> Taken(schema, store, view, root, way, links) && AllRead(schema, firsts, [], [], way, links)
  {
    if way != [] {
      PathsAreWays(schema, store, firsts, view, root, [], [], way, links);
    }
  }

  // ---- Step by step

  predicate ReadAt(
      schema: Schema, firsts: Firsts, path: seq<RelId>, trail: seq<Link>, way: seq<RelId>, links: seq<Link>, i: nat)
    requires Known(schema, way) && i < |way| == |links|
  {
    IsRead(schema, firsts, way[i], path + way[..i], trail + links[..i], links[i])
  }

  lemma {:induction false} AllReadAt(
      schema: Schema, firsts: Firsts, path: seq<RelId>, trail: seq<Link>, way: seq<RelId>, links: seq<Link>)
    requires Known(schema, way) && |links| == |way|
    ensures AllRead(schema, firsts, path, trail, way, links)
      <==> forall i | 0 <= i < |way| :: ReadAt(schema, firsts, path, trail, way, links, i)
    decreases |way|
  {
    if way != [] {
      var below, further := path + [way[0]], trail + [links[0]];
      AllReadAt(schema, firsts, below, further, way[1..], links[1..]);
      assert path + way[..0] == path && trail + links[..0] == trail;
      assert ReadAt(schema, firsts, path, trail, way, links, 0)
        <==> IsRead(schema, firsts, way[0], path, trail, links[0]);
      forall i: nat | i < |way| - 1
        ensures ReadAt(schema, firsts, below, further, way[1..], links[1..], i)
          <==> ReadAt(schema, firsts, path, trail, way, links, i + 1)
      {
        assert below + way[1..][..i] == path + way[..i + 1];
        assert further + links[1..][..i] == trail + links[..i + 1];
      }
      if forall i | 0 <= i < |way| - 1 :: ReadAt(schema, firsts, below, further, way[1..], links[1..], i) {
        forall i | 0 < i < |way| ensures ReadAt(schema, firsts, path, trail, way, links, i) {
          assert ReadAt(schema, firsts, below, further, way[1..], links[1..], i - 1);
        }
      }
    }
  }

  lemma TakesAt(schema: Schema, store: Store, view: ViewId, root: NodeId, way: seq<RelId>, links: seq<Link>, i: nat)
    requires ValidSchema(schema) && view < |schema.views| && Taken(schema, store, view, root, way, links)
    requires i < |way|
    ensures |links| == |way| && Takes(store, EndOf(root, links[..i]), StepOf(schema, way[i]), links[i])
  {
    FitsAt(schema, store, root, way, links, i);
    assert EndOf(root, links[..i]) == if i == 0 then root else links[i - 1].node;
  }

  lemma AsLong(schema: Schema, store: Store, view: ViewId, root: NodeId, way: seq<RelId>, links: seq<Link>)
    requires ValidSchema(schema) && view < |schema.views| && Taken(schema, store, view, root, way, links)
    ensures |links| == |way|
  {
    FitsAreAsLong(store, root, PatternOf(schema, way), links);
    PatternIsAsLong(schema, way);
  }

  // ---- Orders an engine may list in

  ghost function AMatch(store: Store, n: NodeId, step: PatternStep): (link: Link)
    ensures (exists it :: Takes(store, n, step, it)) ==> Takes(store, n, step, link)
  {
    if it :| Takes(store, n, step, it) then it else Link(0, 0)
  }

  /** The first match is the step a way takes, wherever it is on that way, and else any. */
  ghost function Along(schema: Schema, store: Store, root: NodeId, way: seq<RelId>, links: seq<Link>): Firsts
    requires ValidSchema(schema) && |links| == |way|
  {
    (p: seq<RelId>, trail: seq<Link>) =>
      if p == [] || p[|p| - 1] >= |schema.rels| then Link(0, 0)
      else if |p| <= |way| && p == way[..|p|] && trail == links[..|p| - 1] then links[|p| - 1]
      else AMatch(store, EndOf(root, trail), StepOf(schema, p[|p| - 1]))
  }

  /** What is listed first of one field of one node replaced. */
  ghost function Instead(firsts: Firsts, p: seq<RelId>, trail: seq<Link>, link: Link): Firsts {
    (q: seq<RelId>, t: seq<Link>) => if q == p && t == trail then link else firsts(q, t)
  }

  lemma AlongIsFirsts(schema: Schema, store: Store, view: ViewId, root: NodeId, way: seq<RelId>, links: seq<Link>)
    requires ValidSchema(schema) && view < |schema.views| && Taken(schema, store, view, root, way, links)
    ensures |links| == |way| && AreFirsts(schema, store, root, Along(schema, store, root, way, links))
    ensures IsLoaded(schema, store, Along(schema, store, root, way, links), view, root, way, links)
  {
    AsLong(schema, store, view, root, way, links);
    var firsts := Along(schema, store, root, way, links);
    forall path: seq<RelId>, r: RelId, trail: seq<Link> | r < |schema.rels|
      ensures HeadFits(schema, store, root, firsts, path, r, trail)
    {
      var p := path + [r];
      if |p| <= |way| && p == way[..|p|] && trail == links[..|p| - 1] {
        assert way[..|p|][|p| - 1] == r;
        TakesAt(schema, store, view, root, way, links, |p| - 1);
      }
    }
    AlongIsRead(schema, store, root, way, links);
    LoadedIsTaken(schema, store, firsts, view, root, way, links);
  }

  lemma AlongIsRead(schema: Schema, store: Store, root: NodeId, way: seq<RelId>, links: seq<Link>)
    requires ValidSchema(schema) && Known(schema, way) && |links| == |way|
    ensures AllRead(schema, Along(schema, store, root, way, links), [], [], way, links)
  {
    forall i: nat | i < |way| ensures ReadAt(schema, Along(schema, store, root, way, links), [], [], way, links, i) {
      AlongReadsAt(schema, store, root, way, links, i);
    }
    AllReadAt(schema, Along(schema, store, root, way, links), [], [], way, links);
  }

  lemma AlongReadsAt(schema: Schema, store: Store, root: NodeId, way: seq<RelId>, links: seq<Link>, i: nat)
    requires ValidSchema(schema) && Known(schema, way) && i < |way| == |links|
    ensures ReadAt(schema, Along(schema, store, root, way, links), [], [], way, links, i)
  {
    var p := [] + way[..i] + [way[i]];
    assert p == way[..i + 1] && p[|p| - 1] == way[i] && [] + links[..i] == links[..i];
  }

  lemma InsteadIsFirsts(
      schema: Schema, store: Store, root: NodeId, firsts: Firsts, path: seq<RelId>, r: RelId, trail: seq<Link>,
      link: Link)
    requires ValidSchema(schema) && r < |schema.rels| && AreFirsts(schema, store, root, firsts)
    requires Takes(store, EndOf(root, trail), StepOf(schema, r), link)
    ensures AreFirsts(schema, store, root, Instead(firsts, path + [r], trail, link))
  {
    var to := Instead(firsts, path + [r], trail, link);
    forall p: seq<RelId>, q: RelId, t: seq<Link> | q < |schema.rels|
      ensures HeadFits(schema, store, root, to, p, q, t)
    {
      assert HeadFits(schema, store, root, firsts, p, q, t);
      if p + [q] == path + [r] {
        assert (p + [q])[|p|] == (path + [r])[|path|];
      }
    }
  }

  // ---- Where the two agree

  /** What a load reads is taken, whatever its engine lists first. */
  lemma LoadedAreTargets(schema: Schema, store: Store, firsts: Firsts, view: ViewId, root: NodeId, n: NodeId)
    requires ValidSchema(schema) && view < |schema.views| && InLoad(schema, store, firsts, view, root, n)
    ensures InTargets(schema, store, view, root, n)
  {
    var way, links :| IsLoaded(schema, store, firsts, view, root, way, links) && EndOf(root, links) == n;
    LoadedIsTaken(schema, store, firsts, view, root, way, links);
    TargetsAreTaken(schema, store, view, root, n);
  }

  /** And what is taken is what a load reads, in some order its engine may list in. */
  lemma TargetsAreLoadedInSomeOrder(schema: Schema, store: Store, view: ViewId, root: NodeId, n: NodeId)
    requires ValidSchema(schema) && view < |schema.views|
    ensures InTargets(schema, store, view, root, n)
      <==> exists firsts :: AreFirsts(schema, store, root, firsts) && InLoad(schema, store, firsts, view, root, n)
  {
    TargetsAreTaken(schema, store, view, root, n);
    if way, links :| Taken(schema, store, view, root, way, links) && EndOf(root, links) == n {
      AlongIsFirsts(schema, store, view, root, way, links);
      assert InLoad(schema, store, Along(schema, store, root, way, links), view, root, n);
    }
    if firsts :| AreFirsts(schema, store, root, firsts) && InLoad(schema, store, firsts, view, root, n) {
      LoadedAreTargets(schema, store, firsts, view, root, n);
    }
  }

  /** A field of one node, on a way the cascade takes, matches nothing but the step taken. */
  ghost predicate OnlyMatch(schema: Schema, store: Store, root: NodeId, way: seq<RelId>, links: seq<Link>, i: nat)
    requires ValidSchema(schema) && Known(schema, way) && i < |way| == |links|
  {
    schema.rels[way[i]].isCollection
    || forall other | Takes(store, EndOf(root, links[..i]), StepOf(schema, way[i]), other) :: other == links[i]
  }

  /** No field of one node has two matches, on any way the cascade takes. */
  ghost predicate OnlyMatches(schema: Schema, store: Store, view: ViewId, root: NodeId)
    requires ValidSchema(schema) && view < |schema.views|
  {
    forall way, links, i: nat | Taken(schema, store, view, root, way, links) && i < |way| == |links| ::
      OnlyMatch(schema, store, root, way, links, i)
  }

  /** The load has a path for each way the cascade takes. */
  ghost predicate LoadsAll(schema: Schema, store: Store, firsts: Firsts, view: ViewId, root: NodeId)
    requires ValidSchema(schema) && view < |schema.views|
  {
    forall way, links | Taken(schema, store, view, root, way, links) ::
      IsLoaded(schema, store, firsts, view, root, way, links)
  }

  lemma OnlyMatchesAreLoaded(schema: Schema, store: Store, firsts: Firsts, view: ViewId, root: NodeId)
    requires ValidSchema(schema) && view < |schema.views| && AreFirsts(schema, store, root, firsts)
    requires OnlyMatches(schema, store, view, root)
    ensures LoadsAll(schema, store, firsts, view, root)
  {
    forall way, links | Taken(schema, store, view, root, way, links)
      ensures IsLoaded(schema, store, firsts, view, root, way, links)
    {
      AsLong(schema, store, view, root, way, links);
      forall i: nat | i < |way| ensures ReadAt(schema, firsts, [], [], way, links, i) {
        TakesAt(schema, store, view, root, way, links, i);
        assert OnlyMatch(schema, store, root, way, links, i);
        assert [] + links[..i] == links[..i];
        assert HeadFits(schema, store, root, firsts, [] + way[..i], way[i], links[..i]);
      }
      AllReadAt(schema, firsts, [], [], way, links);
      LoadedIsTaken(schema, store, firsts, view, root, way, links);
    }
  }

  /** Where a field of one node matches something else, an engine that lists that first leaves a way out. */
  lemma OtherMatchIsLeftOut(
      schema: Schema, store: Store, view: ViewId, root: NodeId, way: seq<RelId>, links: seq<Link>, i: nat)
      returns (firsts: Firsts)
    requires ValidSchema(schema) && view < |schema.views| && Taken(schema, store, view, root, way, links)
    requires i < |way| == |links| && !OnlyMatch(schema, store, root, way, links, i)
    ensures AreFirsts(schema, store, root, firsts) && !IsLoaded(schema, store, firsts, view, root, way, links)
  {
    var path, trail := [] + way[..i], [] + links[..i];
    assert trail == links[..i];
    var other :| Takes(store, EndOf(root, trail), StepOf(schema, way[i]), other) && other != links[i];
    AlongIsFirsts(schema, store, view, root, way, links);
    var along := Along(schema, store, root, way, links);
    InsteadIsFirsts(schema, store, root, along, path, way[i], trail, other);
    firsts := Instead(along, path + [way[i]], trail, other);
    assert !ReadAt(schema, firsts, [], [], way, links, i);
    AllReadAt(schema, firsts, [], [], way, links);
    LoadedIsTaken(schema, store, firsts, view, root, way, links);
  }

  /**
   * A load reads every way the cascade takes, whatever its engine lists first, if and only if no field of one node has
   * two matches on such a way.
   */
  lemma LoadsAllIffOnlyMatches(schema: Schema, store: Store, view: ViewId, root: NodeId)
    requires ValidSchema(schema) && view < |schema.views|
    ensures OnlyMatches(schema, store, view, root)
      <==> forall firsts | AreFirsts(schema, store, root, firsts) :: LoadsAll(schema, store, firsts, view, root)
  {
    if OnlyMatches(schema, store, view, root) {
      forall firsts | AreFirsts(schema, store, root, firsts) ensures LoadsAll(schema, store, firsts, view, root) {
        OnlyMatchesAreLoaded(schema, store, firsts, view, root);
      }
    } else {
      var way, links, i: nat :| Taken(schema, store, view, root, way, links) && i < |way| == |links|
        && !OnlyMatch(schema, store, root, way, links, i);
      var firsts := OtherMatchIsLeftOut(schema, store, view, root, way, links, i);
      assert !LoadsAll(schema, store, firsts, view, root);
    }
  }

  /**
   * The flat list holds every node a load reads through what a save writes, over paths that take no relationship twice,
   * and exactly those where each field of one node on the way there has but one match.
   */
  lemma CascadeTakesWhatLoadTakes(schema: Schema, store: Store, firsts: Firsts, view: ViewId, root: NodeId, n: NodeId)
    requires ValidSchema(schema) && view < |schema.views| && AreFirsts(schema, store, root, firsts)
    ensures InLoad(schema, store, firsts, view, root, n) ==> InTargets(schema, store, view, root, n)
    ensures OnlyMatches(schema, store, view, root) ==>
      (InTargets(schema, store, view, root, n) <==> InLoad(schema, store, firsts, view, root, n))
  {
    if InLoad(schema, store, firsts, view, root, n) {
      LoadedAreTargets(schema, store, firsts, view, root, n);
    }
    if OnlyMatches(schema, store, view, root) && InTargets(schema, store, view, root, n) {
      OnlyMatchesAreLoaded(schema, store, firsts, view, root);
      TargetsAreTaken(schema, store, view, root, n);
      var way, links :| Taken(schema, store, view, root, way, links) && EndOf(root, links) == n;
      assert IsLoaded(schema, store, firsts, view, root, way, links);
    }
  }

  /**
   * The list the builder gives holds what some load's writable paths end in, and each load's where there is no choice.
   */
  lemma ListHoldsWhatLoadTakes(schema: Schema, store: Store, view: ViewId, root: NodeId, n: NodeId)
    requires ValidSchema(schema) && view < |schema.views|
    ensures var listed := exists p <- CascadeFrom(schema, EMPTY, view).targets :: Reaches(store, root, p, n);
      && (listed <==>
            exists firsts :: AreFirsts(schema, store, root, firsts) && InLoad(schema, store, firsts, view, root, n))
      && (OnlyMatches(schema, store, view, root) ==> forall firsts | AreFirsts(schema, store, root, firsts) ::
            listed <==> InLoad(schema, store, firsts, view, root, n))
  {
    ListHoldsTargets(schema, store, view, root, n);
    TargetsAreLoadedInSomeOrder(schema, store, view, root, n);
    forall firsts | AreFirsts(schema, store, root, firsts) && OnlyMatches(schema, store, view, root)
      ensures InTargets(schema, store, view, root, n) <==> InLoad(schema, store, firsts, view, root, n)
    {
      CascadeTakesWhatLoadTakes(schema, store, firsts, view, root, n);
    }
  }

  // ---- Where they do not

  const OWNER := Hop("OWNED_BY", Outgoing)

  /** A view with a field of one node. */
  const ONE := Schema([ViewModel({}, [0])], [Relationship("owner", OWNER, 1, false, false, Fragment({}))])

  /** The root is owned by two nodes. */
  const TWO := Store(
    Graph(map[0 := PLAIN, 1 := PLAIN, 2 := PLAIN],
      map[0 := Edge("OWNED_BY", 0, 1, map[]), 1 := Edge("OWNED_BY", 0, 2, map[])], 2),
    (v, n) => true)

  lemma BothAreTaken()
    ensures ValidSchema(ONE)
    ensures Taken(ONE, TWO, 0, 0, [0], [Link(0, 1)]) && Taken(ONE, TWO, 0, 0, [0], [Link(1, 2)])
  {
    assert PatternOf(ONE, [0]) == [StepOf(ONE, 0)];
  }

  /** The cascade takes both owners, and no load holds both, whichever its engine lists first. */
  lemma OneOfTwoIsLoaded(firsts: Firsts)
    ensures ValidSchema(ONE) && InTargets(ONE, TWO, 0, 0, 1) && InTargets(ONE, TWO, 0, 0, 2)
    ensures !(InLoad(ONE, TWO, firsts, 0, 0, 1) && InLoad(ONE, TWO, firsts, 0, 0, 2))
  {
    BothAreTaken();
    TargetsAreTaken(ONE, TWO, 0, 0, 1);
    TargetsAreTaken(ONE, TWO, 0, 0, 2);
    if InLoad(ONE, TWO, firsts, 0, 0, 1) && InLoad(ONE, TWO, firsts, 0, 0, 2) {
      var a := OnlyStep(firsts, 1);
      var b := OnlyStep(firsts, 2);
      assert false;
    }
  }

  lemma OnlyStep(firsts: Firsts, n: NodeId) returns (link: Link)
    requires ValidSchema(ONE) && InLoad(ONE, TWO, firsts, 0, 0, n)
    ensures link == firsts([0], []) && link.node == n
  {
    var way, links :| IsLoaded(ONE, TWO, firsts, 0, 0, way, links) && EndOf(0, links) == n;
    LoadedIsTaken(ONE, TWO, firsts, 0, 0, way, links);
    AsLong(ONE, TWO, 0, 0, way, links);
    assert |way| == 1 && way[0] == 0;
    assert [] + [0] == [0];
    link := links[0];
  }
}
