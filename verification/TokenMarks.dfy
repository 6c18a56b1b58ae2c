/**
 * When a token is replaced: an operation gives a node a new data token, or a new links token, if and only if it changes
 * what that token speaks for (src/backend/CypherStamps.ts:25-48, src/backend/EdgeStatements.ts:36-110).
 */
module TokenMarks {
  import opened Wrappers
  import opened Stamps
  import opened Graphs
  import opened Statements
  import opened TokenRuns

  // ---- Data

  /** The property is not as the write leaves it. */
  predicate Differs(props: Props, k: string, v: Option<Value>) {
    match v
    case Some(value) => !(k in props && props[k] == value)
    case None => k in props
  }

  predicate ClauseAlters(n: Node, c: Clause) {
    match c
    case SetProps(delta) => exists k <- delta :: Differs(n.props, k, delta[k])
    case AddLabel(name) => name !in n.labels
    case RemoveLabel(name) => name in n.labels
  }

  /** Whether some clause or property of the operation would alter the node, as it is found. */
  predicate Alters(n: Node, op: Op) {
    match op
    case Merge(_, _, clauses) => exists c <- clauses :: ClauseAlters(n, c)
    case Write(_, clauses) => exists c <- clauses :: ClauseAlters(n, c)
    case Patch(_, delta, applies) => applies && exists k <- delta :: Differs(n.props, k, delta[k])
    case _ => false
  }

  predicate Writes(op: Op, id: NodeId) {
    (op.Merge? || op.Write? || op.Patch?) && op.id == id
  }

  lemma AltersIsChanges(n: Node, clauses: seq<Clause>)
    ensures AnyChanges(n, clauses) <==> exists c <- clauses :: ClauseAlters(n, c)
  {
    forall c <- clauses ensures ClauseChanges(n, c) <==> ClauseAlters(n, c) {
      if c.SetProps? {
        forall k <- c.delta
          ensures Differs(n.props, k, c.delta[k]) <==>
            if c.delta[k].None? then k in n.props else k !in n.props || n.props[k] != c.delta[k].value
        {}
      }
    }
  }

  ghost predicate IsStamped(g: Graph, n: NodeId) {
    n in g.nodes && g.nodes[n].stamp.Some?
  }

  /** A stamped node is given a new data token if and only if the operation writes it and alters something of it. */
  lemma DataIsMarkedExactly(g: Graph, op: Op, offered: Stamp, n: NodeId)
    requires IsStamped(g, n) && !HasData(g, n, offered.data) && n in Run(g, op, offered).nodes
    ensures HasData(Run(g, op, offered), n, offered.data) <==> Writes(op, n) && Alters(g.nodes[n], op)
  {
    if op.Merge? || op.Write? {
      AltersIsChanges(g.nodes[n], op.clauses);
    } else if op.Patch? {
      AltersIsChanges(g.nodes[n], [SetProps(op.delta)]);
    }
  }

  /** A node that is made, or had no stamp and is written, has the whole of the stamp offered. */
  lemma MadeIsStamped(g: Graph, op: Op, offered: Stamp)
    requires op.Merge? || ((op.Write? || op.Patch?) && op.id in g.nodes)
    requires op.id !in g.nodes || g.nodes[op.id].stamp.None?
    ensures op.id in Run(g, op, offered).nodes && Run(g, op, offered).nodes[op.id].stamp == Some(offered)
  {}

  // ---- Relationships

  predicate IsOf(g: Graph, i: EdgeId, n: NodeId) {
    i in g.edges && (g.edges[i].src == n || g.edges[i].dst == n)
  }

  /** The same relationships, with the same properties. */
  ghost predicate SameRelationships(g: Graph, g': Graph, n: NodeId) {
    forall i :: (IsOf(g, i, n) <==> IsOf(g', i, n)) && (IsOf(g, i, n) ==> g.edges[i] == g'.edges[i])
  }

  lemma IncidentAre(g: Graph, g': Graph, n: NodeId)
    ensures Incident(g, n) == Incident(g', n) <==> SameRelationships(g, g', n)
  {
    forall i ensures i in Incident(g, n) <==> IsOf(g, i, n) {}
    forall i ensures i in Incident(g', n) <==> IsOf(g', i, n) {}
    if SameRelationships(g, g', n) {
      forall i ensures i in Incident(g, n) <==> i in Incident(g', n) {
        assert IsOf(g, i, n) <==> IsOf(g', i, n);
      }
      forall i <- Incident(g, n) ensures Incident(g, n)[i] == Incident(g', n)[i] {
        assert IsOf(g, i, n);
      }
    }
    if Incident(g, n) == Incident(g', n) {
      forall i ensures (IsOf(g, i, n) <==> IsOf(g', i, n)) && (IsOf(g, i, n) ==> g.edges[i] == g'.edges[i]) {
        assert IsOf(g, i, n) ==> Incident(g, n)[i] == g.edges[i];
        assert IsOf(g', i, n) ==> Incident(g', n)[i] == g'.edges[i];
      }
    }
  }

  /** A stamped node is given a new links token if and only if the operation changes its relationships. */
  lemma LinksAreMarkedExactly(g: Graph, op: Op, offered: Stamp, n: NodeId)
    requires WellFormed(g) && Ready(g, op) && !Deletes(op)
    requires IsStamped(g, n) && !HasLinks(g, n, offered.links)
    ensures HasLinks(Run(g, op, offered), n, offered.links) <==> !SameRelationships(g, Run(g, op, offered), n)
  {
    var g' := Run(g, op, offered);
    if HasLinks(g', n, offered.links) {
      MarkedIsChanged(g, op, offered, n);
    } else {
      IncidentAre(g, g', n);
      OpKeepsLinks(g, op, offered, n);
      StaysStamped(g, op, offered, n);
      assert HasLinks(g', n, g.nodes[n].stamp.value.links);
    }
  }

  lemma MarkedIsChanged(g: Graph, op: Op, offered: Stamp, n: NodeId)
    requires WellFormed(g) && Ready(g, op) && !Deletes(op)
    requires IsStamped(g, n) && !HasLinks(g, n, offered.links) && HasLinks(Run(g, op, offered), n, offered.links)
    ensures !SameRelationships(g, Run(g, op, offered), n)
  {
    if op.MergeEdge? {
      MergeIsMarked(g, op, offered, n);
    } else if op.EdgeProps? {
      PropsAreMarked(g, op, offered, n);
    } else if op.DropEdges? {
      DropIsMarked(g, op, offered, n);
    } else if op.Relate? {
      RelateIsMarked(g, op, offered, n);
    } else if op.Unrelate? {
      EndIsMarked(g, Between(g, op.a, Hop(op.kind, Outgoing), op.b), n, offered);
    } else if op.UnrelateAll? {
      EndIsMarked(g, EdgesOf(g, op.a, op.hop), n, offered);
    } else {
      WritesMarkNoLinks(g, op, offered, n);
    }
  }

  lemma WritesMarkNoLinks(g: Graph, op: Op, offered: Stamp, n: NodeId)
    requires op.Merge? || op.Write? || op.SubtypeLabels? || op.Patch?
    requires IsStamped(g, n) && !HasLinks(g, n, offered.links)
    ensures !HasLinks(Run(g, op, offered), n, offered.links)
  {
    StaysStamped(g, op, offered, n);
  }

  lemma MergeIsMarked(g: Graph, op: Op, offered: Stamp, n: NodeId)
    requires WellFormed(g) && op.MergeEdge? && IsStamped(g, n) && !HasLinks(g, n, offered.links)
    requires HasLinks(Run(g, op, offered), n, offered.links)
    ensures !SameRelationships(g, Run(g, op, offered), n)
  {
    assert IsOf(Run(g, op, offered), g.nextEdge, n) && !IsOf(g, g.nextEdge, n);
  }

  /** A token that is not replaced stays. */
  lemma StaysStamped(g: Graph, op: Op, offered: Stamp, n: NodeId)
    requires IsStamped(g, n) && !Deletes(op)
    ensures IsStamped(Run(g, op, offered), n)
    ensures var stamp, stamp' := g.nodes[n].stamp.value, Run(g, op, offered).nodes[n].stamp.value;
      && (stamp'.data == stamp.data || stamp'.data == offered.data)
      && (stamp'.links == stamp.links || (stamp'.links == offered.links && !WritesNodes(op)))
  {
    if WritesNodes(op) {
      WrittenStaysStamped(g, op, offered, n);
    } else {
      JoinedStaysStamped(g, op, offered, n);
    }
  }

  lemma WrittenStaysStamped(g: Graph, op: Op, offered: Stamp, n: NodeId)
    requires IsStamped(g, n) && WritesNodes(op)
    ensures IsStamped(Run(g, op, offered), n)
    ensures var stamp, stamp' := g.nodes[n].stamp.value, Run(g, op, offered).nodes[n].stamp.value;
      && (stamp'.data == stamp.data || stamp'.data == offered.data) && stamp'.links == stamp.links
  {
    if (op.Merge? || op.Write?) && op.id == n {
      AppliedKeepsStamp(g.nodes[n], op.clauses);
    }
  }

  lemma JoinedStaysStamped(g: Graph, op: Op, offered: Stamp, n: NodeId)
    requires IsStamped(g, n) && !WritesNodes(op) && !Deletes(op)
    ensures IsStamped(Run(g, op, offered), n)
    ensures var stamp, stamp' := g.nodes[n].stamp.value, Run(g, op, offered).nodes[n].stamp.value;
      stamp'.data == stamp.data && (stamp'.links == stamp.links || stamp'.links == offered.links)
  {}

  lemma ChangedEdge(g: Graph, ids: set<EdgeId>, delta: Delta, n: NodeId)
    requires AnyEdgeChanges(g, ids, delta) && forall i <- ids :: IsOf(g, i, n)
    ensures exists i <- ids :: IsOf(g, i, n) && Patched(g.edges[i].props, delta) != g.edges[i].props
  {
    var i :| i in ids && i in g.edges && Changes(g.edges[i].props, delta);
    ChangesIsExact(g.edges[i].props, delta);
  }

  lemma PropsAreMarked(g: Graph, op: Op, offered: Stamp, n: NodeId)
    requires WellFormed(g) && op.EdgeProps? && Ready(g, op) && IsStamped(g, n) && !HasLinks(g, n, offered.links)
    requires HasLinks(Run(g, op, offered), n, offered.links)
    ensures !SameRelationships(g, Run(g, op, offered), n)
  {
    var g', ids := Run(g, op, offered), Between(g, op.a, op.hop, op.b);
    assert n in {op.a, op.b} && AnyEdgeChanges(g, ids, op.delta);
    ChangedEdge(g, ids, op.delta, n);
    var i :| i in ids && IsOf(g, i, n) && Patched(g.edges[i].props, op.delta) != g.edges[i].props;
    assert IsOf(g, i, n) && g'.edges[i] != g.edges[i];
  }

  lemma RelateIsMarked(g: Graph, op: Op, offered: Stamp, n: NodeId)
    requires WellFormed(g) && op.Relate? && IsStamped(g, n) && !HasLinks(g, n, offered.links)
    requires HasLinks(Run(g, op, offered), n, offered.links)
    ensures !SameRelationships(g, Run(g, op, offered), n)
  {
    var g', ids := Run(g, op, offered), Between(g, op.a, Hop(op.kind, Outgoing), op.b);
    if !op.merges || ids == {} {
      assert IsOf(g', g.nextEdge, n) && !IsOf(g, g.nextEdge, n);
    } else {
      SameIsCountedExactly(g, ids, op.props);
      ChangedEdge(g, ids, AsDelta(op.props), n);
      var i :| i in ids && IsOf(g, i, n) && Patched(g.edges[i].props, AsDelta(op.props)) != g.edges[i].props;
      assert IsOf(g, i, n) && g'.edges[i] != g.edges[i];
    }
  }

  lemma DropIsMarked(g: Graph, op: Op, offered: Stamp, n: NodeId)
    requires op.DropEdges? && !Deletes(op) && IsStamped(g, n) && !HasLinks(g, n, offered.links)
    requires HasLinks(Run(g, op, offered), n, offered.links)
    ensures !SameRelationships(g, Run(g, op, offered), n)
  {
    var removed := Removed(g, op.a, op.hop, op.labels, op.keep);
    var drop := DroppedEdges(g, op.a, op.hop, removed);
    assert Run(g, op, offered).edges == WithoutEdges(g, drop).edges;
    if n in removed {
      var i :| i in Between(g, op.a, op.hop, n);
      assert i in drop && IsOf(g, i, n);
    } else {
      var i :| i in drop;
      assert IsOf(g, i, n);
    }
  }

  lemma EndIsMarked(g: Graph, ids: set<EdgeId>, n: NodeId, offered: Stamp)
    requires IsStamped(g, n) && !HasLinks(g, n, offered.links)
    requires HasLinks(Unrelated(g, ids, offered), n, offered.links)
    ensures !SameRelationships(g, Unrelated(g, ids, offered), n)
  {
    assert n in Ends(g, ids);
    var i :| i in ids && i in g.edges && (g.edges[i].src == n || g.edges[i].dst == n);
    assert IsOf(g, i, n);
  }

  /** One links token at two moments of a run without deletes: each relationship of the node is there at both, alike. */
  lemma LinksTokenTellsEach(states: seq<State>, events: seq<Event>, i: nat, j: nat, n: NodeId, token: Token)
    requires IsRun(states, events) && i <= j < |states|
    requires HasLinks(states[i].graph, n, token) && HasLinks(states[j].graph, n, token)
    requires forall k | i <= k < j :: forall op <- Operations(events[k].statement) :: !Deletes(op)
    ensures SameRelationships(states[i].graph, states[j].graph, n)
  {
    LinksTokenDeterminesRelationships(states, events, i, j, n, token);
    IncidentAre(states[i].graph, states[j].graph, n);
  }
}
