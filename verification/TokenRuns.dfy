/**
 * What a token speaks for: over any run of statements, a node that carries the same data token at two moments holds the
 * same properties at both, and one that carries the same links token has the same relationships.
 */
module TokenRuns {
  import opened Wrappers
  import opened Stamps
  import opened Graphs
  import opened Statements

  /** Whether the operation may delete a node: a delete does not mark the nodes the deleted one was related to. */
  predicate Deletes(op: Op) {
    op.Detach? || (op.DropEdges? && op.unreferenced.DeleteBut?)
  }

  /** Whether the operation may give a node a label without marking it: a row of a subclass does. */
  predicate LabelsUnmarked(op: Op) {
    op.SubtypeLabels? && op.labels != {}
  }

  /** The relationship an `EdgeProps` sets the properties of is there, if both its ends are. */
  predicate Ready(g: Graph, op: Op) {
    op.EdgeProps? && op.a in g.nodes && op.b in g.nodes ==> Between(g, op.a, op.hop, op.b) != {}
  }

  ghost predicate HasData(g: Graph, n: NodeId, token: Token) {
    n in g.nodes && g.nodes[n].stamp.Some? && g.nodes[n].stamp.value.data == token
  }

  ghost predicate HasLinks(g: Graph, n: NodeId, token: Token) {
    n in g.nodes && g.nodes[n].stamp.Some? && g.nodes[n].stamp.value.links == token
  }

  /** A data token of `n` that was not just offered was there before, with the same properties. */
  ghost predicate DataKept(g: Graph, g': Graph, n: NodeId, offered: Stamp) {
    forall token | token != offered.data && HasData(g', n, token) ::
      HasData(g, n, token) && g'.nodes[n].props == g.nodes[n].props
  }

  ghost predicate LabelsKept(g: Graph, g': Graph, n: NodeId, offered: Stamp) {
    forall token | token != offered.data && HasData(g', n, token) ::
      HasData(g, n, token) && g'.nodes[n].labels == g.nodes[n].labels
  }

  /** A links token of `n` that was not just offered was there before, with the same relationships. */
  ghost predicate LinksKept(g: Graph, g': Graph, n: NodeId, offered: Stamp) {
    forall token | token != offered.links && HasLinks(g', n, token) ::
      HasLinks(g, n, token) && Incident(g', n) == Incident(g, n)
  }

  lemma WrittenKeeps(n: Node, clauses: seq<Clause>, offered: Stamp)
    ensures var w := Written(n, clauses, offered);
      w.stamp.Some? && (w.stamp.value.data == offered.data
        || (n.stamp.Some? && w.stamp == n.stamp && w.props == n.props && w.labels == n.labels))
    ensures n.stamp.Some? ==> Written(n, clauses, offered).stamp.value.links == n.stamp.value.links
  {
    if !AnyChanges(n, clauses) {
      UnchangedIsKept(n, clauses);
    }
  }

  /** Nodes marked, or left out, and otherwise as they were. */
  ghost predicate OnlyMarked(g: Graph, g': Graph, offered: Stamp) {
    forall n <- g'.nodes :: n in g.nodes && OnlyRelinked(g.nodes[n], g'.nodes[n], offered)
  }

  ghost predicate OnlyRelinked(n: Node, n': Node, offered: Stamp) {
    && n'.props == n.props && n'.labels == n.labels
    && (n'.stamp == n.stamp || (n.stamp.None? && n'.stamp == Some(offered))
        || (n.stamp.Some? && n'.stamp == Some(Stamp(n.stamp.value.data, offered.links))))
  }

  predicate WritesNodes(op: Op) {
    op.Merge? || op.Write? || op.SubtypeLabels? || op.Patch?
  }

  /** An operation on relationships replaces links tokens, and gives a node with no stamp a whole one, and no more. */
  lemma EdgesOnlyMark(g: Graph, op: Op, offered: Stamp)
    requires !WritesNodes(op)
    ensures OnlyMarked(g, Run(g, op, offered), offered)
  {
    if op.DropEdges? {
      TrimOnlyMarks(g, op, offered);
    } else if op.Relate? {
      RelateOnlyMarks(g, op, offered);
    }
  }

  lemma RelateOnlyMarks(g: Graph, op: Op, offered: Stamp)
    requires op.Relate?
    ensures OnlyMarked(g, Run(g, op, offered), offered)
  {}

  lemma TrimOnlyMarks(g: Graph, op: Op, offered: Stamp)
    requires op.DropEdges?
    ensures OnlyMarked(g, Run(g, op, offered), offered)
  {
    var removed := Removed(g, op.a, op.hop, op.labels, op.keep);
    var drop := DroppedEdges(g, op.a, op.hop, removed);
    var once := Relink(WithoutEdges(g, drop), removed, true, offered);
    assert OnlyMarked(g, once, offered);
    assert OnlyMarked(g, Relink(once, {op.a}, drop != {}, offered), offered);
  }

  /** What a node's own write may do to one it is not of: nothing. */
  lemma WritesOne(g: Graph, op: Op, offered: Stamp)
    requires WritesNodes(op)
    ensures var g' := Run(g, op, offered);
      g'.edges == g.edges && g'.nextEdge == g.nextEdge && g.nodes.Keys <= g'.nodes.Keys
      && forall n <- g'.nodes | n != op.id :: n in g.nodes && g'.nodes[n] == g.nodes[n]
  {}

  lemma OpKeepsForm(g: Graph, op: Op, offered: Stamp)
    requires WellFormed(g)
    ensures WellFormed(Run(g, op, offered))
  {}

  lemma OpKeepsData(g: Graph, op: Op, offered: Stamp, n: NodeId)
    ensures DataKept(g, Run(g, op, offered), n, offered)
    ensures !LabelsUnmarked(op) ==> LabelsKept(g, Run(g, op, offered), n, offered)
  {
    if !WritesNodes(op) {
      EdgesOnlyMark(g, op, offered);
    } else {
      WritesOne(g, op, offered);
      if n == op.id {
        match op
        case Merge(id, labels, clauses) =>
          WrittenKeeps(if id in g.nodes then g.nodes[id] else Node(map[], labels, None), clauses, offered);
        case Write(id, clauses) =>
          if id in g.nodes {
            WrittenKeeps(g.nodes[id], clauses, offered);
          }
        case _ =>
      }
    }
  }

  lemma UntouchedEdges(g: Graph, ids: set<EdgeId>, delta: Delta)
    requires ids <= g.edges.Keys && !AnyEdgeChanges(g, ids, delta)
    ensures EdgesPatched(g, ids, delta).edges == g.edges
  {
    forall i <- ids ensures Patched(g.edges[i].props, delta) == g.edges[i].props {
      ChangesIsExact(g.edges[i].props, delta);
    }
  }

  /** Setting properties of relationships between two nodes leaves those of any third node alone. */
  lemma PatchedBetween(g: Graph, a: NodeId, hop: Hop, b: NodeId, delta: Delta, n: NodeId)
    requires n != a && n != b
    ensures Incident(EdgesPatched(g, Between(g, a, hop, b), delta), n) == Incident(g, n)
  {}

  lemma WriteKeepsLinks(g: Graph, op: Op, offered: Stamp, n: NodeId)
    requires WritesNodes(op)
    ensures LinksKept(g, Run(g, op, offered), n, offered)
  {
    WritesOne(g, op, offered);
    assert Incident(Run(g, op, offered), n) == Incident(g, n);
    match op
    case Merge(id, labels, clauses) =>
      WrittenKeeps(if id in g.nodes then g.nodes[id] else Node(map[], labels, None), clauses, offered);
    case Write(id, clauses) =>
      if id in g.nodes {
        WrittenKeeps(g.nodes[id], clauses, offered);
      }
    case _ =>
  }

  lemma OpKeepsLinks(g: Graph, op: Op, offered: Stamp, n: NodeId)
    requires WellFormed(g) && Ready(g, op) && !Deletes(op)
    ensures LinksKept(g, Run(g, op, offered), n, offered)
  {
    if WritesNodes(op) {
      WriteKeepsLinks(g, op, offered, n);
      return;
    }
    match op
    case MergeEdge(a, hop, b) =>
      if n != a && n != b {
        assert Incident(Run(g, op, offered), n) == Incident(g, n);
      }
    case EdgeProps(a, hop, b, delta) =>
      if a in g.nodes && b in g.nodes {
        SomeEdgesKeepLinks(g, a, hop, b, delta, AnyEdgeChanges(g, Between(g, a, hop, b), delta), offered, n);
      }
    case DropEdges(a, hop, labels, keep, _) =>
      if a in g.nodes {
        DropKeepsLinks(g, op, offered, n);
      }
    case Relate(a, b, kind, props, merges) =>
      RelateKeepsLinks(g, op, offered, n);
    case Unrelate(a, b, kind) =>
      DroppedKeepsOthers(g, Between(g, a, Hop(kind, Outgoing), b), n);
    case UnrelateAll(a, hop) =>
      DroppedKeepsOthers(g, EdgesOf(g, a, hop), n);
  }

  lemma RelateKeepsLinks(g: Graph, op: Op, offered: Stamp, n: NodeId)
    requires WellFormed(g) && op.Relate?
    ensures LinksKept(g, Run(g, op, offered), n, offered)
  {
    if op.a in g.nodes && op.b in g.nodes {
      var hop := Hop(op.kind, Outgoing);
      var ids := Between(g, op.a, hop, op.b);
      if !op.merges || ids == {} {
        if n != op.a && n != op.b {
          assert Incident(Run(g, op, offered), n) == Incident(g, n);
        }
      } else {
        SameIsCountedExactly(g, ids, op.props);
        SomeEdgesKeepLinks(
          g, op.a, hop, op.b, AsDelta(op.props), |Same(g, ids, op.props)| < |ids|, offered, n);
      }
    }
  }

  lemma SomeEdgesKeepLinks(
      g: Graph, a: NodeId, hop: Hop, b: NodeId, delta: Delta, changed: bool, offered: Stamp, n: NodeId)
    requires changed <==> AnyEdgeChanges(g, Between(g, a, hop, b), delta)
    ensures LinksKept(g, EdgesPatched(Relink(g, {a, b}, changed, offered), Between(g, a, hop, b), delta), n, offered)
  {
    var relinked := Relink(g, {a, b}, changed, offered);
    assert Between(relinked, a, hop, b) == Between(g, a, hop, b);
    if !changed {
      UntouchedEdges(relinked, Between(g, a, hop, b), delta);
    } else if n != a && n != b {
      PatchedBetween(relinked, a, hop, b, delta, n);
      assert Incident(relinked, n) == Incident(g, n);
    }
  }

  lemma DroppedKeepsOthers(g: Graph, ids: set<EdgeId>, n: NodeId)
    requires ids <= g.edges.Keys
    ensures n !in Ends(g, ids) ==> Incident(WithoutEdges(g, ids), n) == Incident(g, n)
  {}

  lemma DropKeepsLinks(g: Graph, op: Op, offered: Stamp, n: NodeId)
    requires op.DropEdges? && op.a in g.nodes && op.unreferenced.Keep?
    ensures LinksKept(g, Run(g, op, offered), n, offered)
  {
    var removed := Removed(g, op.a, op.hop, op.labels, op.keep);
    var drop := DroppedEdges(g, op.a, op.hop, removed);
    DroppedKeepsOthers(g, drop, n);
    assert Ends(g, drop) <= removed + {op.a};
    var g' := Run(g, op, offered);
    assert g'.edges == WithoutEdges(g, drop).edges;
    assert Incident(g', n) == Incident(WithoutEdges(g, drop), n);
    if n == op.a && drop == {} {
      assert Incident(WithoutEdges(g, drop), n) == Incident(g, n);
    }
  }

  // ---- A statement

  /** What `There` knows of the graph. */
  ghost predicate Knows(there: There, g: Graph) {
    && there.nodes <= g.nodes.Keys
    && forall j <- there.joins :: j.a in g.nodes && j.b in g.nodes && Between(g, j.a, j.hop, j.b) != {}
  }

  lemma BetweenKept(g: Graph, g': Graph, j: Join)
    requires Between(g, j.a, j.hop, j.b) != {}
    requires forall i <- g.edges :: i in g'.edges && g'.edges[i].(props := g.edges[i].props) == g.edges[i]
    ensures Between(g', j.a, j.hop, j.b) != {}
  {
    var i :| i in Between(g, j.a, j.hop, j.b);
    assert i in Between(g', j.a, j.hop, j.b);
  }

  predicate Drops(op: Op) {
    op.DropEdges? || op.Unrelate? || op.UnrelateAll? || op.Detach?
  }

  /** Every node and relationship is still there, but for what it holds. */
  ghost predicate StillThere(g: Graph, g': Graph) {
    && g.nodes.Keys <= g'.nodes.Keys
    && forall i <- g.edges :: i in g'.edges && g'.edges[i].(props := g.edges[i].props) == g.edges[i]
  }

  lemma NothingDropped(g: Graph, op: Op, offered: Stamp)
    requires WellFormed(g) && !Drops(op)
    ensures StillThere(g, Run(g, op, offered))
  {
    if WritesNodes(op) {
      WritesOne(g, op, offered);
    } else if op.Relate? {
      RelateDropsNothing(g, op, offered);
    } else {
      MergeDropsNothing(g, op, offered);
    }
  }

  lemma StillThereStill(a: Graph, b: Graph, c: Graph)
    requires StillThere(a, b) && StillThere(b, c)
    ensures StillThere(a, c)
  {
  }

  lemma EachDropsNothing(g: Graph, ids: set<NodeId>, changed: bool, edges: set<EdgeId>, delta: Delta, offered: Stamp)
    ensures StillThere(g, Relink(g, ids, changed, offered)) && StillThere(g, EdgesPatched(g, edges, delta))
  {
  }

  lemma NewDropsNothing(g: Graph, e: Edge)
    requires WellFormed(g)
    ensures StillThere(g, WithEdge(g, e))
  {
  }

  /** A relationship made or not, its ends marked, and some properties set. */
  lemma MadeDropsNothing(
      g: Graph, made: Graph, ids: set<NodeId>, changed: bool, edges: set<EdgeId>, delta: Delta, offered: Stamp)
    requires StillThere(g, made)
    ensures StillThere(g, Relink(made, ids, changed, offered))
    ensures StillThere(g, EdgesPatched(Relink(made, ids, changed, offered), edges, delta))
  {
    var marked := Relink(made, ids, changed, offered);
    EachDropsNothing(made, ids, changed, edges, delta, offered);
    StillThereStill(g, made, marked);
    EachDropsNothing(marked, ids, changed, edges, delta, offered);
    StillThereStill(g, marked, EdgesPatched(marked, edges, delta));
  }

  lemma RelateDropsNothing(g: Graph, op: Op, offered: Stamp)
    requires WellFormed(g) && op.Relate?
    ensures StillThere(g, Run(g, op, offered))
  {
    var ids, e := Between(g, op.a, Hop(op.kind, Outgoing), op.b), Edge(op.kind, op.a, op.b, op.props);
    NewDropsNothing(g, e);
    MadeDropsNothing(g, WithEdge(g, e), {op.a, op.b}, true, {}, map[], offered);
    MadeDropsNothing(g, g, {op.a, op.b}, |Same(g, ids, op.props)| < |ids|, ids, AsDelta(op.props), offered);
  }

  lemma MergeDropsNothing(g: Graph, op: Op, offered: Stamp)
    requires WellFormed(g) && (op.MergeEdge? || op.EdgeProps?)
    ensures StillThere(g, Run(g, op, offered))
  {
    var ids, e := Between(g, op.a, op.hop, op.b), NewEdge(op.a, op.hop, op.b, map[]);
    NewDropsNothing(g, e);
    if op.MergeEdge? {
      MadeDropsNothing(g, WithEdge(g, e), {op.a, op.b}, true, {}, map[], offered);
    } else {
      MadeDropsNothing(
        g, WithEdge(g, e), {op.a, op.b}, Changes(map[], op.delta), {g.nextEdge}, op.delta, offered);
      MadeDropsNothing(g, g, {op.a, op.b}, AnyEdgeChanges(g, ids, op.delta), ids, op.delta, offered);
    }
  }

  lemma JoinMade(g: Graph, op: Op, offered: Stamp)
    requires WellFormed(g) && op.MergeEdge? && op.a in g.nodes && op.b in g.nodes
    ensures Between(Run(g, op, offered), op.a, op.hop, op.b) != {}
  {
    if Between(g, op.a, op.hop, op.b) != {} {
      BetweenKept(g, Run(g, op, offered), Join(op.a, op.hop, op.b));
    } else {
      assert g.nextEdge in Between(Run(g, op, offered), op.a, op.hop, op.b);
    }
  }

  lemma StillKnown(there: There, g: Graph, op: Op, offered: Stamp)
    requires WellFormed(g) && Knows(there, g)
    ensures Knows(After(there, op), Run(g, op, offered))
  {
    var g' := Run(g, op, offered);
    var after := After(there, op);
    if !Drops(op) {
      NothingDropped(g, op, offered);
      forall j <- after.joins ensures j.a in g'.nodes && j.b in g'.nodes && Between(g', j.a, j.hop, j.b) != {} {
        if j in there.joins {
          BetweenKept(g, g', j);
        } else {
          JoinMade(g, op, offered);
        }
      }
    }
  }

  lemma {:induction false} AllKeep(there: There, g: Graph, ops: seq<Op>, offered: Stamp, n: NodeId)
    requires WellFormed(g) && Knows(there, g) && InOrder(there, ops)
    ensures WellFormed(RunAll(g, ops, offered))
    ensures DataKept(g, RunAll(g, ops, offered), n, offered)
    ensures (forall op <- ops :: !LabelsUnmarked(op)) ==> LabelsKept(g, RunAll(g, ops, offered), n, offered)
    ensures (forall op <- ops :: !Deletes(op)) ==> LinksKept(g, RunAll(g, ops, offered), n, offered)
    decreases |ops|
  {
    if ops != [] {
      var next := Run(g, ops[0], offered);
      assert ops[0] in ops;
      OpKeepsForm(g, ops[0], offered);
      StillKnown(there, g, ops[0], offered);
      OpKeepsData(g, ops[0], offered, n);
      if !Deletes(ops[0]) {
        OpKeepsLinks(g, ops[0], offered, n);
      }
      AllKeep(After(there, ops[0]), next, ops[1..], offered, n);
    }
  }

  /** What one statement, of any kind, keeps of every node. */
  lemma StatementKeeps(g: Graph, s: Statement, offered: Stamp, n: NodeId)
    requires WellFormed(g)
    ensures WellFormed(Execute(g, s, offered))
    ensures DataKept(g, Execute(g, s, offered), n, offered)
    ensures (forall op <- Operations(s) :: !LabelsUnmarked(op)) ==> LabelsKept(g, Execute(g, s, offered), n, offered)
    ensures (forall op <- Operations(s) :: !Deletes(op)) ==> LinksKept(g, Execute(g, s, offered), n, offered)
  {
    if GoesOn(g, s) {
      StatementsAreInOrder(g, s);
      AllKeep(There(g.nodes.Keys, {}), g, Operations(s), offered, n);
    }
  }

  // ---- A run

  /** A store, and every token it has ever been given. */
  datatype State = State(graph: Graph, used: set<Token>)

  /** A statement, and the stamp made for it. */
  datatype Event = Event(statement: Statement, offered: Stamp)

  ghost predicate Tokened(s: State) {
    && WellFormed(s.graph)
    && TokensIn(s.graph, s.used)
  }

  /** A new stamp's tokens were never seen before: they are random. */
  ghost predicate Fresh(s: State, offered: Stamp) {
    offered.data !in s.used && offered.links !in s.used
  }

  function Next(s: State, e: Event): State {
    State(Execute(s.graph, e.statement, e.offered), s.used + {e.offered.data, e.offered.links})
  }

  ghost predicate IsRun(states: seq<State>, events: seq<Event>) {
    && |states| == |events| + 1
    && Tokened(states[0])
    && forall i {:trigger events[i]} | 0 <= i < |events| ::
         Fresh(states[i], events[i].offered) && states[i + 1] == Next(states[i], events[i])
  }

  ghost predicate TokensIn(g: Graph, used: set<Token>) {
    forall n <- g.nodes | g.nodes[n].stamp.Some? ::
      g.nodes[n].stamp.value.data in used && g.nodes[n].stamp.value.links in used
  }

  lemma {:induction false} TokensComeFromOffers(g: Graph, ops: seq<Op>, offered: Stamp, used: set<Token>)
    requires TokensIn(g, used) && offered.data in used && offered.links in used
    ensures TokensIn(RunAll(g, ops, offered), used)
    decreases |ops|
  {
    if ops != [] {
      var g' := Run(g, ops[0], offered);
      if WritesNodes(ops[0]) {
        WritesOne(g, ops[0], offered);
        WritesOneStamp(g, ops[0], offered);
      } else {
        EdgesOnlyMark(g, ops[0], offered);
      }
      TokensComeFromOffers(g', ops[1..], offered, used);
    }
  }

  lemma WritesOneStamp(g: Graph, op: Op, offered: Stamp)
    requires WritesNodes(op)
    ensures var g' := Run(g, op, offered);
      op.id in g'.nodes && g'.nodes[op.id].stamp.Some? ==>
        || g'.nodes[op.id].stamp.value == offered
        || (op.id in g.nodes && g'.nodes[op.id].stamp == g.nodes[op.id].stamp)
        || (op.id in g.nodes && g.nodes[op.id].stamp.Some?
            && g'.nodes[op.id].stamp.value == Stamp(offered.data, g.nodes[op.id].stamp.value.links))
  {}

  lemma NextIsTokened(s: State, e: Event)
    requires Tokened(s)
    ensures Tokened(Next(s, e))
  {
    StatementKeeps(s.graph, e.statement, e.offered, 0);
    var used := s.used + {e.offered.data, e.offered.links};
    assert TokensIn(s.graph, used);
    if GoesOn(s.graph, e.statement) {
      TokensComeFromOffers(s.graph, Operations(e.statement), e.offered, used);
    }
  }

  lemma {:induction false} RunIsTokened(states: seq<State>, events: seq<Event>, i: nat)
    requires IsRun(states, events) && i < |states|
    ensures Tokened(states[i])
  {
    if i > 0 {
      RunIsTokened(states, events, i - 1);
      NextIsTokened(states[i - 1], events[i - 1]);
    }
  }

  lemma {:induction false} UsedGrows(states: seq<State>, events: seq<Event>, i: nat, j: nat)
    requires IsRun(states, events) && i <= j < |states|
    ensures states[i].used <= states[j].used
    decreases j - i
  {
    if i < j {
      UsedGrows(states, events, i, j - 1);
      assert states[j] == Next(states[j - 1], events[j - 1]);
    }
  }

  /** The same data token at two moments is the same properties, in any run, deletes of nodes included. */
  lemma {:induction false} DataTokenDeterminesProperties(
      states: seq<State>, events: seq<Event>, i: nat, j: nat, n: NodeId, token: Token)
    requires IsRun(states, events) && i <= j < |states|
    requires HasData(states[i].graph, n, token) && HasData(states[j].graph, n, token)
    ensures states[i].graph.nodes[n].props == states[j].graph.nodes[n].props
    ensures forall k | i <= k <= j :: HasData(states[k].graph, n, token)
    decreases j - i
  {
    if i < j {
      RunIsTokened(states, events, i);
      RunIsTokened(states, events, j - 1);
      UsedGrows(states, events, i, j - 1);
      StatementKeeps(states[j - 1].graph, events[j - 1].statement, events[j - 1].offered, n);
      DataTokenDeterminesProperties(states, events, i, j - 1, n, token);
    }
  }

  /** And the same labels, where no statement wrote a row of a subclass of its field's class. */
  lemma {:induction false} DataTokenDeterminesLabels(
      states: seq<State>, events: seq<Event>, i: nat, j: nat, n: NodeId, token: Token)
    requires IsRun(states, events) && i <= j < |states|
    requires HasData(states[i].graph, n, token) && HasData(states[j].graph, n, token)
    requires forall k | i <= k < j :: forall op <- Operations(events[k].statement) :: !LabelsUnmarked(op)
    ensures states[i].graph.nodes[n].labels == states[j].graph.nodes[n].labels
    decreases j - i
  {
    if i < j {
      RunIsTokened(states, events, i);
      RunIsTokened(states, events, j - 1);
      UsedGrows(states, events, i, j - 1);
      StatementKeeps(states[j - 1].graph, events[j - 1].statement, events[j - 1].offered, n);
      DataTokenDeterminesLabels(states, events, i, j - 1, n, token);
    }
  }

  /**
   * The same links token at two moments is the same relationships, with the same properties, if no node was deleted.
   */
  lemma {:induction false} LinksTokenDeterminesRelationships(
      states: seq<State>, events: seq<Event>, i: nat, j: nat, n: NodeId, token: Token)
    requires IsRun(states, events) && i <= j < |states|
    requires HasLinks(states[i].graph, n, token) && HasLinks(states[j].graph, n, token)
    requires forall k | i <= k < j :: forall op <- Operations(events[k].statement) :: !Deletes(op)
    ensures Incident(states[i].graph, n) == Incident(states[j].graph, n)
    decreases j - i
  {
    if i < j {
      RunIsTokened(states, events, i);
      RunIsTokened(states, events, j - 1);
      UsedGrows(states, events, i, j - 1);
      StatementKeeps(states[j - 1].graph, events[j - 1].statement, events[j - 1].offered, n);
      LinksTokenDeterminesRelationships(states, events, i, j - 1, n, token);
    }
  }

  // ---- A token is replaced only for a change

  /** A patch gives a stamped node a new data token when, and only when, it changes its properties. */
  lemma PatchMarksExactly(g: Graph, id: NodeId, delta: Delta, applies: bool, offered: Stamp)
    requires id in g.nodes && g.nodes[id].stamp.Some? && !HasData(g, id, offered.data)
    ensures var g' := Run(g, Patch(id, delta, applies), offered);
      HasData(g', id, offered.data) <==> g'.nodes[id].props != g.nodes[id].props
  {
    ChangesIsExact(g.nodes[id].props, delta);
  }

  /** A relate gives its stamped ends new links tokens when, and only when, it makes a relationship or changes one. */
  lemma RelateMarksExactly(
      g: Graph, a: NodeId, b: NodeId, kind: string, props: Props, merges: bool, offered: Stamp, end: NodeId)
    requires WellFormed(g) && a in g.nodes && b in g.nodes && end in {a, b}
    requires g.nodes[end].stamp.Some? && !HasLinks(g, end, offered.links)
    ensures var g' := Run(g, Relate(a, b, kind, props, merges), offered);
      HasLinks(g', end, offered.links) <==> g'.edges != g.edges
  {
    var ids := Between(g, a, Hop(kind, Outgoing), b);
    var g' := Run(g, Relate(a, b, kind, props, merges), offered);
    if !merges || ids == {} {
      assert g.nextEdge in g'.edges && g.nextEdge !in g.edges;
    } else {
      SameIsCountedExactly(g, ids, props);
      if AnyEdgeChanges(g, ids, AsDelta(props)) {
        var i :| i in ids && Changes(g.edges[i].props, AsDelta(props));
        ChangesIsExact(g.edges[i].props, AsDelta(props));
        assert g'.edges[i].props != g.edges[i].props;
      } else {
        UntouchedEdges(g, ids, AsDelta(props));
      }
    }
  }

  // ---- What the tokens do not speak for

  /** A delete leaves the far end's links token as it was, though it has lost a relationship. */
  lemma DeletesGoUnmarked(stamp: Stamp, offered: Stamp)
    ensures var g := Graph(map[1 := Node(map[], {}, Some(stamp)), 2 := Node(map[], {}, Some(stamp))],
                           map[0 := Edge("KNOWS", 1, 2, map[])], 1);
      var g' := Execute(g, Deleting({2}), offered);
      && HasLinks(g, 1, stamp.links) && HasLinks(g', 1, stamp.links)
      && Incident(g, 1) != Incident(g', 1)
  {
    var g := Graph(map[1 := Node(map[], {}, Some(stamp)), 2 := Node(map[], {}, Some(stamp))],
                   map[0 := Edge("KNOWS", 1, 2, map[])], 1);
    var ops := Operations(Deleting({2}));
    assert ops == [Detach({2})] && ops[1..] == [];
    assert RunAll(Run(g, ops[0], offered), ops[1..], offered) == Run(g, ops[0], offered);
    assert 0 in Incident(g, 1);
  }

  /** A row of a subclass gives a related node its labels and leaves the data token as it was. */
  lemma SubtypeLabelsGoUnmarked(stamp: Stamp, offered: Stamp)
    ensures var g := Graph(map[1 := Node(map[], {"Person"}, Some(stamp))], map[], 0);
      var g' := Run(g, SubtypeLabels(1, {"Employee"}), offered);
      && HasData(g, 1, stamp.data) && HasData(g', 1, stamp.data)
      && g.nodes[1].labels != g'.nodes[1].labels
  {
    var g := Graph(map[1 := Node(map[], {"Person"}, Some(stamp))], map[], 0);
    assert "Employee" in Run(g, SubtypeLabels(1, {"Employee"}), offered).nodes[1].labels;
    assert "Employee"[0] != "Person"[0];
  }
}
