/**
 * What the clauses of a statement do to a graph, each told of its relationships and nodes one by one: the trim of a
 * replaced list (src/backend/SaveStatementBuilder.ts:380-411), the edge statements
 * (src/backend/EdgeStatements.ts:36-110) and the deletes (src/backend/CypherBackend.ts:107-112).
 */
module Effects {
  import opened Wrappers
  import opened Stamps
  import opened Graphs

  /** A relationship leads from a node to another over a type, followed the way it may be. */
  predicate Leads(e: Edge, a: NodeId, hop: Hop, b: NodeId) {
    && e.kind == hop.kind
    && match hop.direction
       case Outgoing => e.src == a && e.dst == b
       case Incoming => e.src == b && e.dst == a
       case Undirected => (e.src == a && e.dst == b) || (e.src == b && e.dst == a)
  }

  lemma LeadsIsSteps(e: Edge, a: NodeId, hop: Hop, b: NodeId)
    ensures Leads(e, a, hop, b) <==> Steps(e, a, hop, b)
  {
  }

  /** The same but for stamps. */
  predicate SameNode(a: Node, b: Node) {
    a.props == b.props && a.labels == b.labels
  }

  ghost predicate SameNodes(g: Graph, g': Graph) {
    g'.nodes.Keys == g.nodes.Keys && forall n <- g.nodes :: SameNode(g.nodes[n], g'.nodes[n])
  }

  // ---- A list that is replaced

  /** A node the field leads to that is of the field's labels and not to be kept. */
  predicate IsRemoved(g: Graph, a: NodeId, hop: Hop, labels: set<string>, keep: set<NodeId>, x: NodeId) {
    && x in g.nodes && x !in keep && labels <= g.nodes[x].labels
    && exists i <- g.edges :: Leads(g.edges[i], a, hop, x)
  }

  /** A relationship that goes: one that leads to such a node. */
  predicate IsDropped(g: Graph, a: NodeId, hop: Hop, labels: set<string>, keep: set<NodeId>, i: EdgeId) {
    && i in g.edges
    && exists x <- g.nodes :: x !in keep && labels <= g.nodes[x].labels && Leads(g.edges[i], a, hop, x)
  }

  lemma RemovedAre(g: Graph, a: NodeId, hop: Hop, labels: set<string>, keep: set<NodeId>)
    ensures forall x :: x in Removed(g, a, hop, labels, keep) <==> IsRemoved(g, a, hop, labels, keep, x)
  {
    forall x ensures Between(g, a, hop, x) != {} <==> exists i <- g.edges :: Leads(g.edges[i], a, hop, x) {
      if i :| i in Between(g, a, hop, x) {
        LeadsIsSteps(g.edges[i], a, hop, x);
      }
      if i :| i in g.edges && Leads(g.edges[i], a, hop, x) {
        LeadsIsSteps(g.edges[i], a, hop, x);
        assert i in Between(g, a, hop, x);
      }
    }
  }

  lemma DroppedAre(g: Graph, a: NodeId, hop: Hop, labels: set<string>, keep: set<NodeId>)
    ensures forall i ::
      i in DroppedEdges(g, a, hop, Removed(g, a, hop, labels, keep)) <==> IsDropped(g, a, hop, labels, keep, i)
  {
    var removed := Removed(g, a, hop, labels, keep);
    RemovedAre(g, a, hop, labels, keep);
    forall i ensures i in DroppedEdges(g, a, hop, removed) <==> IsDropped(g, a, hop, labels, keep, i) {
      if i in DroppedEdges(g, a, hop, removed) {
        var x :| x in removed && i in Between(g, a, hop, x);
        LeadsIsSteps(g.edges[i], a, hop, x);
      }
      if IsDropped(g, a, hop, labels, keep, i) {
        var x :| x in g.nodes && x !in keep && labels <= g.nodes[x].labels && Leads(g.edges[i], a, hop, x);
        LeadsIsSteps(g.edges[i], a, hop, x);
        assert x in removed && i in Between(g, a, hop, x);
      }
    }
  }

  /**
   * Replaced, a field's relationships go that lead to a node of its labels outside those to be kept, and no others;
   * what stays is as it was.
   */
  lemma ReplacedDropsTheOthers(g: Graph, a: NodeId, hop: Hop, labels: set<string>, keep: set<NodeId>, offered: Stamp)
    requires a in g.nodes
    ensures var g' := Run(g, DropEdges(a, hop, labels, keep, Keep), offered);
      && SameNodes(g, g') && g'.nextEdge == g.nextEdge
      && (forall i :: i in g'.edges <==> i in g.edges && !IsDropped(g, a, hop, labels, keep, i))
      && forall i <- g'.edges :: i in g.edges && g'.edges[i] == g.edges[i]
  {
    DroppedAre(g, a, hop, labels, keep);
    assert Run(g, DropEdges(a, hop, labels, keep, Keep), offered).edges
      == WithoutEdges(g, DroppedEdges(g, a, hop, Removed(g, a, hop, labels, keep))).edges;
  }

  /** Something refers to the node as the field did, but for what is dropped. */
  predicate StillReferred(g: Graph, a: NodeId, hop: Hop, labels: set<string>, keep: set<NodeId>, x: NodeId)
  {
    exists i <- g.edges :: !IsDropped(g, a, hop, labels, keep, i)
      && match hop.direction
         case Outgoing => g.edges[i].dst == x
         case Incoming => g.edges[i].src == x
         case Undirected => g.edges[i].src == x || g.edges[i].dst == x
  }

  /**
   * What DELETE_UNREFERENCED deletes besides: of the nodes removed, those nothing refers to and the object holds not.
   */
  predicate IsUnreferenced(
      g: Graph, a: NodeId, hop: Hop, labels: set<string>, keep: set<NodeId>, held: set<NodeId>, x: NodeId)
  {
    && IsRemoved(g, a, hop, labels, keep, x) && x != a && x !in held
    && !StillReferred(g, a, hop, labels, keep, x)
  }

  /** The store once the relationships are dropped and their ends marked. */
  function Dropped(g: Graph, a: NodeId, hop: Hop, labels: set<string>, keep: set<NodeId>, offered: Stamp): Graph
  {
    var removed := Removed(g, a, hop, labels, keep);
    var drop := DroppedEdges(g, a, hop, removed);
    Relink(Relink(WithoutEdges(g, drop), removed, true, offered), {a}, drop != {}, offered)
  }

  lemma DroppedIs(g: Graph, a: NodeId, hop: Hop, labels: set<string>, keep: set<NodeId>, offered: Stamp)
    ensures var g' := Dropped(g, a, hop, labels, keep, offered);
      && SameNodes(g, g') && g'.nextEdge == g.nextEdge
      && (forall i :: i in g'.edges <==> i in g.edges && !IsDropped(g, a, hop, labels, keep, i))
      && forall i <- g'.edges :: i in g.edges && g'.edges[i] == g.edges[i]
  {
    DroppedAre(g, a, hop, labels, keep);
  }

  lemma ReferredIs(g: Graph, a: NodeId, hop: Hop, labels: set<string>, keep: set<NodeId>, offered: Stamp, x: NodeId)
    ensures Referenced(Dropped(g, a, hop, labels, keep, offered), x, hop.direction)
      <==> StillReferred(g, a, hop, labels, keep, x)
  {
    var kept := Dropped(g, a, hop, labels, keep, offered);
    DroppedIs(g, a, hop, labels, keep, offered);
    if Referenced(kept, x, hop.direction) {
      var i :| i in kept.edges && ((hop.direction != Incoming && kept.edges[i].dst == x)
        || (hop.direction != Outgoing && kept.edges[i].src == x));
      assert i in g.edges && !IsDropped(g, a, hop, labels, keep, i);
    }
    if StillReferred(g, a, hop, labels, keep, x) {
      var i :| i in g.edges && !IsDropped(g, a, hop, labels, keep, i)
        && match hop.direction
           case Outgoing => g.edges[i].dst == x
           case Incoming => g.edges[i].src == x
           case Undirected => g.edges[i].src == x || g.edges[i].dst == x;
      assert i in kept.edges;
    }
  }

  lemma ReplacedDeletesUnreferenced(
      g: Graph, a: NodeId, hop: Hop, labels: set<string>, keep: set<NodeId>, held: set<NodeId>, offered: Stamp)
    requires a in g.nodes
    ensures var g' := Run(g, DropEdges(a, hop, labels, keep, DeleteBut(held)), offered);
      && (forall n :: n in g'.nodes <==> n in g.nodes && !IsUnreferenced(g, a, hop, labels, keep, held, n))
      && (forall n <- g'.nodes :: n in g.nodes && SameNode(g.nodes[n], g'.nodes[n]))
      && (forall i :: i in g'.edges <==>
            && i in g.edges && !IsDropped(g, a, hop, labels, keep, i)
            && !IsUnreferenced(g, a, hop, labels, keep, held, g.edges[i].src)
            && !IsUnreferenced(g, a, hop, labels, keep, held, g.edges[i].dst))
      && forall i <- g'.edges :: i in g.edges && g'.edges[i] == g.edges[i]
  {
    var kept := Dropped(g, a, hop, labels, keep, offered);
    var gone := GoneOf(g, a, hop, labels, keep, held, offered);
    DroppedIs(g, a, hop, labels, keep, offered);
    GoneIs(g, a, hop, labels, keep, held, offered);
    assert Run(g, DropEdges(a, hop, labels, keep, DeleteBut(held)), offered) == Detached(kept, gone);
    WithoutGone(kept, gone);
  }

  function GoneOf(
      g: Graph, a: NodeId, hop: Hop, labels: set<string>, keep: set<NodeId>, held: set<NodeId>,
      offered: Stamp): set<NodeId>
  {
    var kept := Dropped(g, a, hop, labels, keep, offered);
    set x | x in Removed(g, a, hop, labels, keep) && x != a && x !in held && !Referenced(kept, x, hop.direction)
  }

  lemma GoneIs(g: Graph, a: NodeId, hop: Hop, labels: set<string>, keep: set<NodeId>, held: set<NodeId>, offered: Stamp)
    ensures forall x ::
      x in GoneOf(g, a, hop, labels, keep, held, offered) <==> IsUnreferenced(g, a, hop, labels, keep, held, x)
  {
    RemovedAre(g, a, hop, labels, keep);
    forall x ensures x in GoneOf(g, a, hop, labels, keep, held, offered)
      <==> IsUnreferenced(g, a, hop, labels, keep, held, x)
    {
      ReferredIs(g, a, hop, labels, keep, offered, x);
    }
  }

  lemma WithoutGone(g: Graph, gone: set<NodeId>)
    ensures var g' := Detached(g, gone);
      && (forall n :: n in g'.nodes <==> n in g.nodes && n !in gone)
      && (forall n <- g'.nodes :: g'.nodes[n] == g.nodes[n])
      && (forall i :: i in g'.edges <==> i in g.edges && g.edges[i].src !in gone && g.edges[i].dst !in gone)
      && forall i <- g'.edges :: g'.edges[i] == g.edges[i]
  {
  }

  // ---- The edge statements

  predicate HoldsAll(e: Edge, props: Props) {
    forall k <- props :: k in e.props && e.props[k] == props[k]
  }

  /** A relationship with other properties, or the same. */
  predicate SameEnds(a: Edge, b: Edge) {
    a.kind == b.kind && a.src == b.src && a.dst == b.dst
  }

  function There(g: Graph, a: NodeId, b: NodeId, kind: string): set<EdgeId> {
    set i | i in g.edges && Leads(g.edges[i], a, Hop(kind, Outgoing), b)
  }

  lemma ThereIs(g: Graph, a: NodeId, b: NodeId, kind: string)
    ensures There(g, a, b, kind) == Between(g, a, Hop(kind, Outgoing), b)
  {
    forall i <- g.edges
      ensures Leads(g.edges[i], a, Hop(kind, Outgoing), b) <==> Steps(g.edges[i], a, Hop(kind, Outgoing), b)
    {
      LeadsIsSteps(g.edges[i], a, Hop(kind, Outgoing), b);
    }
  }

  /** A property the relationship is not given stays. */
  ghost predicate KeepsOthers(before: Edge, after: Edge, props: Props) {
    forall k :: k !in props ==>
      (k in after.props <==> k in before.props) && (k in after.props ==> after.props[k] == before.props[k])
  }

  /** Related again by a MERGE, the relationships there are given the properties. */
  lemma RelatedAgain(g: Graph, a: NodeId, b: NodeId, kind: string, props: Props, offered: Stamp)
    requires a in g.nodes && b in g.nodes && There(g, a, b, kind) != {}
    ensures var g' := Run(g, Relate(a, b, kind, props, true), offered);
      && SameNodes(g, g') && g'.edges.Keys == g.edges.Keys && g'.nextEdge == g.nextEdge
      && forall i <- g.edges ::
           if i in There(g, a, b, kind) then
             && SameEnds(g.edges[i], g'.edges[i]) && HoldsAll(g'.edges[i], props)
             && KeepsOthers(g.edges[i], g'.edges[i], props)
           else g'.edges[i] == g.edges[i]
  {
    var ids := There(g, a, b, kind);
    ThereIs(g, a, b, kind);
    assert Run(g, Relate(a, b, kind, props, true), offered).edges == EdgesPatched(g, ids, AsDelta(props)).edges;
    forall i <- ids
      ensures var after := EdgesPatched(g, ids, AsDelta(props)).edges[i];
        SameEnds(g.edges[i], after) && HoldsAll(after, props) && KeepsOthers(g.edges[i], after, props)
    {
      GivenProps(g.edges[i], props);
    }
  }

  lemma GivenProps(e: Edge, props: Props)
    ensures var after := e.(props := Patched(e.props, AsDelta(props)));
      SameEnds(e, after) && HoldsAll(after, props) && KeepsOthers(e, after, props)
  {
  }

  /** Related for the first time, or by a CREATE, the nodes have one relationship more, with the properties. */
  lemma RelatedAnew(g: Graph, a: NodeId, b: NodeId, kind: string, props: Props, merges: bool, offered: Stamp)
    requires WellFormed(g) && a in g.nodes && b in g.nodes
    requires merges ==> There(g, a, b, kind) == {}
    ensures var g' := Run(g, Relate(a, b, kind, props, merges), offered);
      && SameNodes(g, g') && g.nextEdge !in g.edges
      && g'.edges == g.edges[g.nextEdge := Edge(kind, a, b, props)]
  {
    ThereIs(g, a, b, kind);
  }

  /** Unrelated, the relationships of the type from the one node to the other go, and no others. */
  lemma UnrelatedDrops(g: Graph, a: NodeId, b: NodeId, kind: string, offered: Stamp)
    ensures var g' := Run(g, Unrelate(a, b, kind), offered);
      && SameNodes(g, g')
      && (forall i :: i in g'.edges <==> i in g.edges && !Leads(g.edges[i], a, Hop(kind, Outgoing), b))
      && forall i <- g'.edges :: g'.edges[i] == g.edges[i]
  {
    ThereIs(g, a, b, kind);
  }

  /** And all of the type, followed the way it may be, whatever they lead to. */
  lemma UnrelatedAllDrops(g: Graph, a: NodeId, hop: Hop, offered: Stamp)
    ensures var g' := Run(g, UnrelateAll(a, hop), offered);
      && SameNodes(g, g')
      && (forall i :: i in g'.edges <==> i in g.edges && !exists b :: Leads(g.edges[i], a, hop, b))
      && forall i <- g'.edges :: g'.edges[i] == g.edges[i]
  {
    forall i <- g.edges ensures i in EdgesOf(g, a, hop) <==> exists b :: Leads(g.edges[i], a, hop, b) {
      LeadsIsSteps(g.edges[i], a, hop, Other(g.edges[i], a));
      if b :| Leads(g.edges[i], a, hop, b) {
        LeadsIsSteps(g.edges[i], a, hop, b);
        assert Steps(g.edges[i], a, hop, Other(g.edges[i], a));
      }
    }
  }

  /** Deleted, nodes go with every relationship of theirs, and nothing else. */
  lemma DeletedGo(g: Graph, ids: set<NodeId>, offered: Stamp)
    ensures var g' := Run(g, Detach(ids), offered);
      && (forall n :: n in g'.nodes <==> n in g.nodes && n !in ids)
      && (forall n <- g'.nodes :: g'.nodes[n] == g.nodes[n])
      && (forall i :: i in g'.edges <==> i in g.edges && g.edges[i].src !in ids && g.edges[i].dst !in ids)
      && forall i <- g'.edges :: g'.edges[i] == g.edges[i]
  {
  }

  // ---- Patches

  /** A patched node holds what the patch sets, not what it clears, and the rest as before, if the patch applies. */
  lemma PatchedHolds(g: Graph, id: NodeId, delta: Delta, applies: bool, offered: Stamp)
    requires id in g.nodes
    ensures var g' := Run(g, Patch(id, delta, applies), offered);
      && g'.nodes.Keys == g.nodes.Keys && g'.edges == g.edges && g'.nodes[id].labels == g.nodes[id].labels
      && (forall n <- g.nodes | n != id :: g'.nodes[n] == g.nodes[n])
      && forall k ::
           var before, after := g.nodes[id].props, g'.nodes[id].props;
           if applies && k in delta then
             if delta[k].Some? then k in after && after[k] == delta[k].value else k !in after
           else (k in after <==> k in before) && (k in before ==> after[k] == before[k])
  {
  }
}
