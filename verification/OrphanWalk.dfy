/**
 * DELETE_ORPHAN: which of a cascade's targets are kept (src/backend/CypherBackend.ts:138-161). A target is kept when a
 * node outside the cascade refers to it, or when a kept node holds it. The walk reads the holders of each node among
 * the nodes the step before kept, and is cut at as many steps as there are targets.
 */
module OrphanWalk {
  import opened Graphs
  import Cascades
  import CascadeLists

  /** What the walk reads of the store: which nodes each node is related to, and which hold it. */
  datatype Reads = Reads(neighbours: NodeId -> set<NodeId>, holders: NodeId -> set<NodeId>)

  predicate Joined(g: Graph, a: NodeId, b: NodeId) {
    exists e <- g.edges.Values :: (e.src == a && e.dst == b) || (e.src == b && e.dst == a)
  }

  /** Whether a node is one step of a relationship the cascade follows above another. */
  predicate IsAbove(g: Graph, hops: seq<Hop>, a: NodeId, b: NodeId) {
    exists e <- g.edges.Values, hop <- hops :: Graphs.Steps(e, a, hop, b)
  }

  /** What it reads of a graph, where a cascade follows these hops. */
  function ReadsOf(g: Graph, hops: seq<Hop>): Reads {
    Reads((t: NodeId) => set m | m in g.nodes && Joined(g, t, m),
          (t: NodeId) => set h | h in g.nodes && IsAbove(g, hops, h, t))
  }

  /** The targets each once, without the root. */
  function Distinct(targets: seq<NodeId>, root: NodeId): seq<NodeId> {
    if targets == [] then []
    else
      var seen := Distinct(targets[..|targets| - 1], root);
      var t := targets[|targets| - 1];
      if t in seen || t == root then seen else seen + [t]
  }

  function Filter(list: seq<NodeId>, keep: NodeId -> bool): seq<NodeId> {
    if list == [] then []
    else (if keep(list[0]) then [list[0]] else []) + Filter(list[1..], keep)
  }

  /** Whether something outside the cascade is related to the node. */
  predicate ReferredTo(store: Reads, root: NodeId, targets: seq<NodeId>, t: NodeId) {
    exists m <- store.neighbours(t) :: m != root && m !in targets
  }

  function Seeds(store: Reads, root: NodeId, targets: seq<NodeId>): seq<NodeId> {
    Filter(targets, (t: NodeId) => ReferredTo(store, root, targets, t))
  }

  predicate HeldByOne(store: Reads, t: NodeId, among: seq<NodeId>) {
    exists h <- store.holders(t) :: h in among
  }

  /** What is kept so far, and how much of it the step before had. */
  datatype Walk = Walk(found: seq<NodeId>, had: nat)

  /** The targets that what was newly kept holds, and that are not kept yet. */
  function More(store: Reads, targets: seq<NodeId>, w: Walk): seq<NodeId>
    requires w.had <= |w.found|
  {
    Filter(targets, (t: NodeId) => t !in w.found && HeldByOne(store, t, w.found[w.had..]))
  }

  function Step(store: Reads, targets: seq<NodeId>, w: Walk): Walk
    requires w.had <= |w.found|
  {
    if w.had == |w.found| then w
    else Walk(w.found + More(store, targets, w), |w.found|)
  }

  function Steps(store: Reads, targets: seq<NodeId>, w: Walk, steps: nat): (r: Walk)
    requires w.had <= |w.found|
    ensures r.had <= |r.found|
    decreases steps
  {
    if steps == 0 then w else Steps(store, targets, Step(store, targets, w), steps - 1)
  }

  /** The nodes the delete keeps of `given`, the list of what the cascade reaches. */
  function Kept(store: Reads, root: NodeId, given: seq<NodeId>): seq<NodeId> {
    var targets := Distinct(given, root);
    Steps(store, targets, Walk(Seeds(store, root, targets), 0), |targets|).found
  }

  function Orphans(store: Reads, root: NodeId, given: seq<NodeId>): seq<NodeId> {
    var kept := Kept(store, root, given);
    Filter(Distinct(given, root), (t: NodeId) => t !in kept)
  }

  // ---- What is to be kept

  /** A chain of holders from a node something outside refers to: what a node is kept for. */
  ghost predicate Chain(store: Reads, root: NodeId, targets: seq<NodeId>, chain: seq<NodeId>) {
    && chain != []
    && var last := |chain| - 1;
      && chain[last] in targets
      && if last == 0 then ReferredTo(store, root, targets, chain[0])
         else chain[last - 1] in store.holders(chain[last]) && Chain(store, root, targets, chain[..last])
  }

  /** Kept for good: at the end of such a chain. */
  ghost predicate MustStay(store: Reads, root: NodeId, targets: seq<NodeId>, t: NodeId) {
    exists chain :: Chain(store, root, targets, chain) && chain[|chain| - 1] == t
  }

  ghost predicate Closed(store: Reads, targets: seq<NodeId>, s: set<NodeId>) {
    forall t <- targets, h <- s | h in store.holders(t) :: t in s
  }

  // ---- Lists

  lemma {:induction false} FilterIs(list: seq<NodeId>, keep: NodeId -> bool)
    ensures forall t :: t in Filter(list, keep) <==> t in list && keep(t)
  {
    if list != [] {
      FilterIs(list[1..], keep);
    }
  }

  ghost predicate NoRepeats(list: seq<NodeId>) {
    forall i, j | 0 <= i < j < |list| :: list[i] != list[j]
  }

  lemma {:induction false} FilterKeepsOnce(list: seq<NodeId>, keep: NodeId -> bool)
    requires NoRepeats(list)
    ensures NoRepeats(Filter(list, keep))
  {
    if list != [] {
      FilterKeepsOnce(list[1..], keep);
      FilterIs(list[1..], keep);
      assert list[0] !in list[1..];
    }
  }

  lemma {:induction false} DistinctIs(targets: seq<NodeId>, root: NodeId)
    ensures NoRepeats(Distinct(targets, root))
    ensures forall t :: t in Distinct(targets, root) <==> t in targets && t != root
  {
    if targets != [] {
      DistinctIs(targets[..|targets| - 1], root);
      assert targets == targets[..|targets| - 1] + [targets[|targets| - 1]];
    }
  }

  /** A list of some of another's items, each once, is no longer than it. */
  lemma {:induction false} NoLonger(part: seq<NodeId>, whole: seq<NodeId>)
    requires NoRepeats(part) && forall t <- part :: t in whole
    ensures |part| <= |whole|
  {
    if part != [] {
      var last := part[|part| - 1];
      assert last in part;
      var i :| 0 <= i < |whole| && whole[i] == last;
      var rest := whole[..i] + whole[i + 1..];
      forall t <- part[..|part| - 1] ensures t in rest {
        assert t != last && t in part;
        var j :| 0 <= j < |whole| && whole[j] == t;
        assert if j < i then rest[j] == t else rest[j - 1] == t;
      }
      NoLonger(part[..|part| - 1], rest);
    }
  }

  // ---- The walk

  /** What each step of the walk keeps true. */
  ghost predicate Going(store: Reads, root: NodeId, targets: seq<NodeId>, w: Walk) {
    && w.had <= |w.found|
    && NoRepeats(w.found)
    && (forall t <- w.found :: t in targets && MustStay(store, root, targets, t))
    && (forall t <- targets | ReferredTo(store, root, targets, t) :: t in w.found)
    // Everything held by what the steps before the last kept is kept.
    && Followed(store, targets, w.found[..w.had], w.found)
  }

  /** Every target that one of `holders` holds is in the list. */
  ghost predicate Followed(store: Reads, targets: seq<NodeId>, holders: seq<NodeId>, list: seq<NodeId>) {
    forall h <- holders, t <- targets | h in store.holders(t) :: t in list
  }

  lemma Extends(store: Reads, root: NodeId, targets: seq<NodeId>, h: NodeId, t: NodeId)
    requires MustStay(store, root, targets, h) && t in targets && h in store.holders(t)
    ensures MustStay(store, root, targets, t)
  {
    var chain :| Chain(store, root, targets, chain) && chain[|chain| - 1] == h;
    assert (chain + [t])[..|chain|] == chain;
    assert Chain(store, root, targets, chain + [t]);
  }

  lemma MoreIs(store: Reads, targets: seq<NodeId>, w: Walk)
    requires w.had <= |w.found| && NoRepeats(targets)
    ensures NoRepeats(More(store, targets, w))
    ensures forall t :: t in More(store, targets, w) <==>
      t in targets && t !in w.found && HeldByOne(store, t, w.found[w.had..])
  {
    FilterIs(targets, (t: NodeId) => t !in w.found && HeldByOne(store, t, w.found[w.had..]));
    FilterKeepsOnce(targets, (t: NodeId) => t !in w.found && HeldByOne(store, t, w.found[w.had..]));
  }

  lemma MoreMustStay(store: Reads, root: NodeId, targets: seq<NodeId>, w: Walk, t: NodeId)
    requires NoRepeats(targets) && Going(store, root, targets, w) && t in More(store, targets, w)
    ensures MustStay(store, root, targets, t)
  {
    MoreIs(store, targets, w);
    var h :| h in store.holders(t) && h in w.found[w.had..];
    Extends(store, root, targets, h, t);
  }

  lemma StepFollows(store: Reads, targets: seq<NodeId>, w: Walk)
    requires w.had <= |w.found| && NoRepeats(targets) && Followed(store, targets, w.found[..w.had], w.found)
    ensures Followed(store, targets, w.found, w.found + More(store, targets, w))
  {
    MoreIs(store, targets, w);
    assert w.found == w.found[..w.had] + w.found[w.had..];
  }

  lemma NoneTwice(a: seq<NodeId>, b: seq<NodeId>)
    requires NoRepeats(a) && NoRepeats(b) && forall t <- b :: t !in a
    ensures NoRepeats(a + b)
  {
    forall i, j | 0 <= i < j < |a + b| ensures (a + b)[i] != (a + b)[j] {
      if i < |a| <= j {
        assert b[j - |a|] in b && a[i] in a;
      }
    }
  }

  lemma StepGoesOn(store: Reads, root: NodeId, targets: seq<NodeId>, w: Walk)
    requires NoRepeats(targets) && Going(store, root, targets, w)
    ensures Going(store, root, targets, Step(store, targets, w))
  {
    if w.had < |w.found| {
      MoreIs(store, targets, w);
      StepFollows(store, targets, w);
      forall t <- More(store, targets, w) ensures MustStay(store, root, targets, t) {
        MoreMustStay(store, root, targets, w, t);
      }
      NoneTwice(w.found, More(store, targets, w));
      assert (w.found + More(store, targets, w))[..|w.found|] == w.found;
    }
  }

  lemma FoundFits(store: Reads, root: NodeId, targets: seq<NodeId>, w: Walk)
    requires Going(store, root, targets, w)
    ensures |w.found| <= |targets|
  {
    NoLonger(w.found, targets);
  }

  lemma {:induction false} StepsGoOn(store: Reads, root: NodeId, targets: seq<NodeId>, w: Walk, steps: nat)
    requires NoRepeats(targets) && Going(store, root, targets, w)
    ensures Going(store, root, targets, Steps(store, targets, w, steps))
    decreases steps
  {
    if steps > 0 {
      StepGoesOn(store, root, targets, w);
      StepsGoOn(store, root, targets, Step(store, targets, w), steps - 1);
    }
  }

  lemma {:induction false} StoppedStays(store: Reads, targets: seq<NodeId>, w: Walk, steps: nat)
    requires w.had == |w.found|
    ensures Steps(store, targets, w, steps) == w
    decreases steps
  {
    if steps > 0 {
      StoppedStays(store, targets, w, steps - 1);
    }
  }

  /** Each step either stops the walk or goes at least one node further. */
  lemma {:induction false} StepsGoFurther(store: Reads, targets: seq<NodeId>, w: Walk, steps: nat)
    requires w.had <= |w.found|
    ensures var end := Steps(store, targets, w, steps); end.had == |end.found| || end.had >= w.had + steps
    decreases steps
  {
    if w.had == |w.found| {
      StoppedStays(store, targets, w, steps);
    } else if steps > 0 {
      var next := Step(store, targets, w);
      assert next.had == |w.found|;
      StepsGoFurther(store, targets, next, steps - 1);
    }
  }

  /** As many steps as there are targets are enough. */
  lemma StepsFinish(store: Reads, root: NodeId, targets: seq<NodeId>, w: Walk)
    requires NoRepeats(targets) && Going(store, root, targets, w)
    ensures var end := Steps(store, targets, w, |targets|); end.had == |end.found|
  {
    StepsGoFurther(store, targets, w, |targets|);
    StepsGoOn(store, root, targets, w, |targets|);
    FoundFits(store, root, targets, Steps(store, targets, w, |targets|));
  }

  lemma WalkEnds(store: Reads, root: NodeId, given: seq<NodeId>)
    ensures var targets := Distinct(given, root);
      Going(store, root, targets, Walk(Kept(store, root, given), |Kept(store, root, given)|))
  {
    var targets := Distinct(given, root);
    DistinctIs(given, root);
    var refers := (t: NodeId) => ReferredTo(store, root, targets, t);
    FilterIs(targets, refers);
    FilterKeepsOnce(targets, refers);
    var start := Walk(Seeds(store, root, targets), 0);
    forall t <- start.found ensures MustStay(store, root, targets, t) {
      assert Chain(store, root, targets, [t]);
    }
    assert start.found[..0] == [];
    StepsGoOn(store, root, targets, start, |targets|);
    StepsFinish(store, root, targets, start);
  }

  lemma {:induction false} ChainIsKept(
      store: Reads, root: NodeId, targets: seq<NodeId>, chain: seq<NodeId>, s: set<NodeId>)
    requires Chain(store, root, targets, chain) && Closed(store, targets, s)
    requires forall t <- targets | ReferredTo(store, root, targets, t) :: t in s
    ensures chain[|chain| - 1] in s
  {
    if |chain| > 1 {
      var last := |chain| - 1;
      ChainIsKept(store, root, targets, chain[..last], s);
      var h := chain[..last][last - 1];
      var t := chain[last];
      assert h in s && t in targets && h in store.holders(t);
      assert t in s;
    } else {
      assert ReferredTo(store, root, targets, chain[0]);
    }
  }

  /** The walk keeps exactly the targets at the end of a chain of holders from one something outside refers to. */
  lemma KeptIsWhatMustStay(store: Reads, root: NodeId, given: seq<NodeId>, t: NodeId)
    ensures t in Kept(store, root, given) <==> MustStay(store, root, Distinct(given, root), t)
  {
    var targets := Distinct(given, root);
    var kept := Kept(store, root, given);
    WalkEnds(store, root, given);
    assert kept[..|kept|] == kept;
    var s := set it | it in kept;
    assert Closed(store, targets, s);
    if MustStay(store, root, targets, t) {
      var chain :| Chain(store, root, targets, chain) && chain[|chain| - 1] == t;
      ChainIsKept(store, root, targets, chain, s);
    }
  }

  /** And so the least set of targets with those referred to from outside, closed under being held by a kept one. */
  lemma KeptIsLeast(store: Reads, root: NodeId, given: seq<NodeId>, s: set<NodeId>)
    requires Closed(store, Distinct(given, root), s)
    requires forall t <- Distinct(given, root) | ReferredTo(store, root, Distinct(given, root), t) :: t in s
    ensures forall t <- Kept(store, root, given) :: t in s
    ensures Closed(store, Distinct(given, root), set t | t in Kept(store, root, given))
  {
    var targets := Distinct(given, root);
    forall t <- Kept(store, root, given) ensures t in s {
      KeptIsWhatMustStay(store, root, given, t);
      var chain :| Chain(store, root, targets, chain) && chain[|chain| - 1] == t;
      ChainIsKept(store, root, targets, chain, s);
    }
    WalkEnds(store, root, given);
    var kept := Kept(store, root, given);
    assert kept[..|kept|] == kept;
  }

  /** The orphans are the other targets, and nothing outside the cascade is related to one. */
  lemma OrphansAre(store: Reads, root: NodeId, given: seq<NodeId>, t: NodeId)
    ensures t in Orphans(store, root, given) <==> t in given && t != root && t !in Kept(store, root, given)
    ensures t in Orphans(store, root, given) ==>
      forall m <- store.neighbours(t) :: m == root || m in given
    ensures t in Orphans(store, root, given) ==>
      forall h <- store.holders(t) :: h in given ==> h == root || h in Orphans(store, root, given)
  {
    var targets := Distinct(given, root);
    var kept := Kept(store, root, given);
    DistinctIs(given, root);
    FilterIs(targets, (t: NodeId) => t !in kept);
    WalkEnds(store, root, given);
    assert kept[..|kept|] == kept;
  }

  // ---- The orphans, told from the graph alone

  /** A node that is neither the root nor one the cascade reaches has a relationship with the node, either way round. */
  ghost predicate HasOutsider(g: Graph, root: NodeId, given: seq<NodeId>, t: NodeId) {
    exists i, m :: IsOutsider(g, root, given, t, i, m)
  }

  predicate IsOutsider(g: Graph, root: NodeId, given: seq<NodeId>, t: NodeId, i: EdgeId, m: NodeId) {
    && i in g.edges && m in g.nodes && m != root && m !in given
    && ((g.edges[i].src == t && g.edges[i].dst == m) || (g.edges[i].dst == t && g.edges[i].src == m))
  }

  /** A relationship of a type and direction the cascade follows leads down from one node to the other. */
  ghost predicate LeadsDown(g: Graph, hops: seq<Hop>, a: NodeId, b: NodeId) {
    exists i: EdgeId, k: nat :: IsDown(g, hops, a, b, i, k)
  }

  predicate IsDown(g: Graph, hops: seq<Hop>, a: NodeId, b: NodeId, i: EdgeId, k: nat) {
    && i in g.edges && k < |hops| && g.edges[i].kind == hops[k].kind
    && match hops[k].direction
       case Outgoing => g.edges[i].src == a && g.edges[i].dst == b
       case Incoming => g.edges[i].dst == a && g.edges[i].src == b
       case Undirected =>
         (g.edges[i].src == a && g.edges[i].dst == b) || (g.edges[i].dst == a && g.edges[i].src == b)
  }

  ghost predicate LinkAt(g: Graph, hops: seq<Hop>, chain: seq<NodeId>, i: nat)
    requires 0 < i < |chain|
  {
    chain[i - 1] in g.nodes && LeadsDown(g, hops, chain[i - 1], chain[i])
  }

  /** Of what the cascade reaches, a chain down from a node that something outside has a relationship with. */
  ghost predicate HoldsDown(g: Graph, hops: seq<Hop>, root: NodeId, given: seq<NodeId>, chain: seq<NodeId>) {
    && chain != [] && (forall i | 0 <= i < |chain| :: chain[i] in given && chain[i] != root)
    && HasOutsider(g, root, given, chain[0])
    && forall i | 0 < i < |chain| :: LinkAt(g, hops, chain, i)
  }

  lemma OutsiderRefers(g: Graph, hops: seq<Hop>, root: NodeId, given: seq<NodeId>, t: NodeId)
    ensures HasOutsider(g, root, given, t) <==> ReferredTo(ReadsOf(g, hops), root, Distinct(given, root), t)
  {
    DistinctIs(given, root);
    if ReferredTo(ReadsOf(g, hops), root, Distinct(given, root), t) {
      var m :| m in ReadsOf(g, hops).neighbours(t) && m != root && m !in Distinct(given, root);
      var e :| e in g.edges.Values && ((e.src == t && e.dst == m) || (e.src == m && e.dst == t));
      var i :| i in g.edges && g.edges[i] == e;
      assert IsOutsider(g, root, given, t, i, m);
    }
    if i, m :| IsOutsider(g, root, given, t, i, m) {
      assert g.edges[i] in g.edges.Values && Joined(g, t, m);
      assert m in ReadsOf(g, hops).neighbours(t);
    }
  }

  lemma LeadsDownHolds(g: Graph, hops: seq<Hop>, a: NodeId, b: NodeId)
    ensures a in g.nodes && LeadsDown(g, hops, a, b) <==> a in ReadsOf(g, hops).holders(b)
  {
    if IsAbove(g, hops, a, b) {
      var e, hop :| e in g.edges.Values && hop in hops && Graphs.Steps(e, a, hop, b);
      var i :| i in g.edges && g.edges[i] == e;
      var k :| 0 <= k < |hops| && hops[k] == hop;
      assert IsDown(g, hops, a, b, i, k);
    }
    if i: EdgeId, k: nat :| IsDown(g, hops, a, b, i, k) {
      assert g.edges[i] in g.edges.Values && hops[k] in hops && Graphs.Steps(g.edges[i], a, hops[k], b);
    }
  }

  lemma {:induction false} ChainsAre(g: Graph, hops: seq<Hop>, root: NodeId, given: seq<NodeId>, chain: seq<NodeId>)
    ensures HoldsDown(g, hops, root, given, chain)
      <==> Chain(ReadsOf(g, hops), root, Distinct(given, root), chain)
  {
    DistinctIs(given, root);
    if |chain| == 1 {
      OutsiderRefers(g, hops, root, given, chain[0]);
    } else if |chain| > 1 {
      var last := |chain| - 1;
      ChainsAre(g, hops, root, given, chain[..last]);
      LeadsDownHolds(g, hops, chain[last - 1], chain[last]);
      OneMoreDown(g, hops, root, given, chain);
    }
  }

  lemma OneMoreDown(g: Graph, hops: seq<Hop>, root: NodeId, given: seq<NodeId>, chain: seq<NodeId>)
    requires |chain| > 1
    ensures var last := |chain| - 1;
      HoldsDown(g, hops, root, given, chain) <==>
        && HoldsDown(g, hops, root, given, chain[..last]) && chain[last] in given && chain[last] != root
        && chain[last - 1] in g.nodes && LeadsDown(g, hops, chain[last - 1], chain[last])
  {
    var last := |chain| - 1;
    forall i | 0 < i < last ensures LinkAt(g, hops, chain[..last], i) <==> LinkAt(g, hops, chain, i) {}
    if HoldsDown(g, hops, root, given, chain[..last]) && chain[last] in given && chain[last] != root
      && LinkAt(g, hops, chain, last)
    {
      forall i | 0 <= i < |chain| ensures chain[i] in given && chain[i] != root {
        assert i < last ==> chain[i] == chain[..last][i];
      }
      forall i | 0 < i < |chain| ensures LinkAt(g, hops, chain, i) {
        assert i < last ==> LinkAt(g, hops, chain[..last], i);
      }
    }
    if HoldsDown(g, hops, root, given, chain) {
      assert LinkAt(g, hops, chain, last);
      forall i | 0 < i < last ensures LinkAt(g, hops, chain[..last], i) {
        assert LinkAt(g, hops, chain, i);
      }
    }
  }

  /**
   * DELETE_ORPHAN deletes exactly the targets but the root to which no chain of holders leads down from a target that
   * something outside the cascade has a relationship with.
   */
  lemma OrphansAreUnheld(g: Graph, hops: seq<Hop>, root: NodeId, given: seq<NodeId>, t: NodeId)
    ensures t in Orphans(ReadsOf(g, hops), root, given) <==>
      && t in given && t != root
      && !exists chain :: HoldsDown(g, hops, root, given, chain) && chain[|chain| - 1] == t
  {
    var store := ReadsOf(g, hops);
    OrphansAre(store, root, given, t);
    KeptIsWhatMustStay(store, root, given, t);
    if chain :| Chain(store, root, Distinct(given, root), chain) && chain[|chain| - 1] == t {
      ChainsAre(g, hops, root, given, chain);
    }
    if chain :| HoldsDown(g, hops, root, given, chain) && chain[|chain| - 1] == t {
      ChainsAre(g, hops, root, given, chain);
    }
  }

  /** One related to the root alone is deleted. */
  lemma RelatedToTheRootAlone(g: Graph, hops: seq<Hop>, root: NodeId, given: seq<NodeId>, t: NodeId)
    requires t in given && t != root
    requires forall i <- g.edges ::
      (g.edges[i].src == t ==> g.edges[i].dst == root) && (g.edges[i].dst == t ==> g.edges[i].src == root)
    ensures t in Orphans(ReadsOf(g, hops), root, given)
  {
    OrphansAreUnheld(g, hops, root, given, t);
    forall chain | HoldsDown(g, hops, root, given, chain) ensures chain[|chain| - 1] != t {
      if |chain| > 1 {
        var last := |chain| - 1;
        assert LinkAt(g, hops, chain, last) && chain[last - 1] != root;
      }
    }
  }

  lemma HoldersAreNeighbours(g: Graph, hops: seq<Hop>, t: NodeId)
    ensures ReadsOf(g, hops).holders(t) <= ReadsOf(g, hops).neighbours(t)
  {
    forall h | IsAbove(g, hops, h, t) ensures Joined(g, t, h) {
      var e, hop :| e in g.edges.Values && hop in hops && Graphs.Steps(e, h, hop, t);
    }
  }

  /**
   * What a cascading delete takes besides its root hangs on nothing that stays: an orphan is one of the cascade, each
   * of its relationships is to the root or to another of the cascade, and each node that holds it over a relationship
   * the cascade follows is the root or an orphan too.
   */
  lemma OrphansHangOnNothing(
      schema: Cascades.Schema, store: Cascades.Store, view: Cascades.ViewId, root: NodeId, given: seq<NodeId>,
      t: NodeId)
    requires Cascades.ValidSchema(schema) && view < |schema.views|
    requires forall n :: n in given <==> Cascades.InTargets(schema, store, view, root, n)
    ensures var hops := CascadeLists.CascadeFrom(schema, CascadeLists.EMPTY, view).holders;
      var orphans := Orphans(ReadsOf(store.g, hops), root, given);
      t in orphans ==>
        && t != root && Cascades.InTargets(schema, store, view, root, t)
        && (forall m | m in store.g.nodes && Joined(store.g, t, m) ::
              m == root || Cascades.InTargets(schema, store, view, root, m))
        && (forall h | h in store.g.nodes && IsAbove(store.g, hops, h, t) :: h == root || h in orphans)
  {
    var hops := CascadeLists.CascadeFrom(schema, CascadeLists.EMPTY, view).holders;
    OrphansAre(ReadsOf(store.g, hops), root, given, t);
    HoldersAreNeighbours(store.g, hops, t);
    forall m | m in store.g.nodes && Joined(store.g, t, m) ensures m in ReadsOf(store.g, hops).neighbours(t) {}
    forall h | h in store.g.nodes && IsAbove(store.g, hops, h, t) ensures h in ReadsOf(store.g, hops).holders(t) {}
  }
}
