/**
 * The property graph a store holds, and what each clause of a statement does to it: the parts src/backend's statement
 * builders are made of, with the stamps they replace (src/backend/CypherStamps.ts).
 */
module Graphs {
  import opened Wrappers
  import opened Stamps

  type NodeId = nat
  type EdgeId = nat

  /** A stored value. Only whether two are equal matters to a stamp. */
  datatype Value = Number(n: int) | Text(text: string) | Items(items: seq<Value>)

  type Props = map<string, Value>

  /** What a write asks of some properties: a value, or none to clear it. */
  type Delta = map<string, Option<Value>>

  datatype Node = Node(props: Props, labels: set<string>, stamp: Option<Stamp>)

  /** A node that holds nothing. */
  const PLAIN := Node(map[], {}, None)

  datatype Edge = Edge(kind: string, src: NodeId, dst: NodeId, props: Props)

  datatype Graph = Graph(nodes: map<NodeId, Node>, edges: map<EdgeId, Edge>, nextEdge: EdgeId)

  datatype Direction = Outgoing | Incoming | Undirected

  /** One step of a relationship: its type, and the way it is followed. */
  datatype Hop = Hop(kind: string, direction: Direction)

  predicate Steps(e: Edge, a: NodeId, hop: Hop, b: NodeId) {
    && e.kind == hop.kind
    && ((hop.direction != Incoming && e.src == a && e.dst == b)
        || (hop.direction != Outgoing && e.src == b && e.dst == a))
  }

  predicate Touches(e: Edge, n: NodeId) {
    e.src == n || e.dst == n
  }

  /** The relationships of a node, of every type and in both directions, with their properties. */
  function Incident(g: Graph, n: NodeId): map<EdgeId, Edge> {
    map i | i in g.edges && Touches(g.edges[i], n) :: g.edges[i]
  }

  predicate WellFormed(g: Graph) {
    forall i <- g.edges :: i < g.nextEdge && g.edges[i].src in g.nodes && g.edges[i].dst in g.nodes
  }

  // ---- Properties

  /** `SET n += props`: a null clears. */
  function Patched(props: Props, delta: Delta): Props {
    map k | k in props.Keys + delta.Keys && (k in delta ==> delta[k].Some?)
      :: if k in delta then delta[k].value else props[k]
  }

  /** The test a write makes before it, of each key it names. */
  predicate Changes(props: Props, delta: Delta) {
    exists k <- delta ::
      if delta[k].None? then k in props else k !in props || props[k] != delta[k].value
  }

  /** The test is exact: it says there is a change when, and only when, the write makes one. */
  lemma ChangesIsExact(props: Props, delta: Delta)
    ensures Changes(props, delta) <==> Patched(props, delta) != props
  {
    var after := Patched(props, delta);
    if Changes(props, delta) {
      var k :| k in delta && if delta[k].None? then k in props else k !in props || props[k] != delta[k].value;
      assert delta[k].Some? ==> k in after && after[k] == delta[k].value;
      assert delta[k].None? ==> k !in after;
    } else {
      forall k ensures k in after <==> k in props {
        if k in delta {}
      }
      assert forall k <- after :: after[k] == props[k];
      assert after == props;
    }
  }

  // ---- The clauses that write a node

  /** One clause of the write of a node: properties, or a label given or taken away. */
  datatype Clause = SetProps(delta: Delta) | AddLabel(name: string) | RemoveLabel(name: string)

  predicate ClauseChanges(n: Node, c: Clause) {
    match c
    case SetProps(delta) => Changes(n.props, delta)
    case AddLabel(name) => name !in n.labels
    case RemoveLabel(name) => name in n.labels
  }

  function ClauseApplied(n: Node, c: Clause): Node {
    match c
    case SetProps(delta) => n.(props := Patched(n.props, delta))
    case AddLabel(name) => n.(labels := n.labels + {name})
    case RemoveLabel(name) => n.(labels := n.labels - {name})
  }

  predicate AnyChanges(n: Node, clauses: seq<Clause>) {
    exists c <- clauses :: ClauseChanges(n, c)
  }

  function Applied(n: Node, clauses: seq<Clause>): Node
    decreases |clauses|
  {
    if clauses == [] then n else Applied(ClauseApplied(n, clauses[0]), clauses[1..])
  }

  /** Clauses none of which changes the node as it is found leave it as it is, run one after another. */
  lemma {:induction false} UnchangedIsKept(n: Node, clauses: seq<Clause>)
    requires !AnyChanges(n, clauses)
    ensures Applied(n, clauses) == n
    decreases |clauses|
  {
    if clauses != [] {
      assert clauses[0] in clauses;
      if clauses[0].SetProps? {
        ChangesIsExact(n.props, clauses[0].delta);
      }
      assert ClauseApplied(n, clauses[0]) == n;
      UnchangedIsKept(n, clauses[1..]);
    }
  }

  lemma {:induction false} AppliedKeepsStamp(n: Node, clauses: seq<Clause>)
    ensures Applied(n, clauses).stamp == n.stamp
    decreases |clauses|
  {
    if clauses != [] {
      AppliedKeepsStamp(ClauseApplied(n, clauses[0]), clauses[1..]);
    }
  }

  // ---- Stamps

  function Restamped(stamp: Option<Stamp>, changed: bool, offered: Stamp): Option<Stamp> {
    if stamp.None? then Some(offered)
    else if changed then Some(Stamp(offered.data, stamp.value.links))
    else stamp
  }

  function Relinked(stamp: Option<Stamp>, changed: bool, offered: Stamp): Option<Stamp> {
    if stamp.None? then Some(offered)
    else if changed then Some(Stamp(stamp.value.data, offered.links))
    else stamp
  }

  /** The write of a node that is there: its data token first, from what it then holds, and the clauses after. */
  function Written(n: Node, clauses: seq<Clause>, offered: Stamp): Node {
    Applied(n, clauses).(stamp := Restamped(n.stamp, AnyChanges(n, clauses), offered))
  }

  function RelinkedNode(n: Node, changed: bool, offered: Stamp): Node {
    n.(stamp := Relinked(n.stamp, changed, offered))
  }

  // ---- Operations of a statement

  /** What `replace` with DELETE_UNREFERENCED deletes: the nodes it removed but those the object still holds. */
  datatype Unreferenced = Keep | DeleteBut(held: set<NodeId>)

  datatype Op =
    /** The node with the id, made with the labels if it is not there, and the clauses run on it. */
    | Merge(id: NodeId, labels: set<string>, clauses: seq<Clause>)
    /** The clauses run on a node that is there. */
    | Write(id: NodeId, clauses: seq<Clause>)
    /** The labels of the row's subclass, which are given to a node after its stamp was tested. */
    | SubtypeLabels(id: NodeId, labels: set<string>)
    /** A patch of a node that is there, where its condition holds. */
    | Patch(id: NodeId, delta: Delta, applies: bool)
    /** A relationship made where there is none. */
    | MergeEdge(a: NodeId, hop: Hop, b: NodeId)
    /** The properties of the relationships between two nodes, made already. */
    | EdgeProps(a: NodeId, hop: Hop, b: NodeId, delta: Delta)
    /** The relationships of a field trimmed to `keep`. */
    | DropEdges(a: NodeId, hop: Hop, labels: set<string>, keep: set<NodeId>, unreferenced: Unreferenced)
    /** `edges.relate`: MERGE, or CREATE, which always makes another. */
    | Relate(a: NodeId, b: NodeId, kind: string, props: Props, merges: bool)
    /** `edges.unrelate` and `edges.unrelateAll`. */
    | Unrelate(a: NodeId, b: NodeId, kind: string)
    | UnrelateAll(a: NodeId, hop: Hop)
    | Detach(ids: set<NodeId>)

  function Relink(g: Graph, ids: set<NodeId>, changed: bool, offered: Stamp): Graph {
    g.(nodes := map n | n in g.nodes :: if n in ids then RelinkedNode(g.nodes[n], changed, offered) else g.nodes[n])
  }

  function WithoutEdges(g: Graph, drop: set<EdgeId>): Graph {
    g.(edges := map i | i in g.edges && i !in drop :: g.edges[i])
  }

  function WithEdge(g: Graph, e: Edge): Graph {
    g.(edges := g.edges[g.nextEdge := e], nextEdge := g.nextEdge + 1)
  }

  function Detached(g: Graph, ids: set<NodeId>): Graph {
    g.(nodes := map n | n in g.nodes && n !in ids :: g.nodes[n],
       edges := map i | i in g.edges && g.edges[i].src !in ids && g.edges[i].dst !in ids :: g.edges[i])
  }

  function Between(g: Graph, a: NodeId, hop: Hop, b: NodeId): set<EdgeId> {
    set i | i in g.edges && Steps(g.edges[i], a, hop, b)
  }

  /** The edge a MERGE makes: an undirected one is made outgoing. */
  function NewEdge(a: NodeId, hop: Hop, b: NodeId, props: Props): Edge {
    if hop.direction.Incoming? then Edge(hop.kind, b, a, props) else Edge(hop.kind, a, b, props)
  }

  function EdgesPatched(g: Graph, ids: set<EdgeId>, delta: Delta): Graph {
    g.(edges := map i | i in g.edges ::
         if i in ids then g.edges[i].(props := Patched(g.edges[i].props, delta)) else g.edges[i])
  }

  predicate AnyEdgeChanges(g: Graph, ids: set<EdgeId>, delta: Delta) {
    exists i <- ids :: i in g.edges && Changes(g.edges[i].props, delta)
  }

  function Ends(g: Graph, ids: set<EdgeId>): set<NodeId> {
    (set i | i in ids && i in g.edges :: g.edges[i].src) + (set i | i in ids && i in g.edges :: g.edges[i].dst)
  }

  /** The nodes a trimmed field led to and no longer does. */
  function Removed(g: Graph, a: NodeId, hop: Hop, labels: set<string>, keep: set<NodeId>): set<NodeId> {
    set x | x in g.nodes && labels <= g.nodes[x].labels && x !in keep && Between(g, a, hop, x) != {}
  }

  function DroppedEdges(g: Graph, a: NodeId, hop: Hop, removed: set<NodeId>): set<EdgeId> {
    set i, x | x in removed && i in Between(g, a, hop, x) :: i
  }

  /** Whether something still refers to the node the way the field did. */
  predicate Referenced(g: Graph, x: NodeId, direction: Direction) {
    exists i <- g.edges ::
      (direction != Incoming && g.edges[i].dst == x) || (direction != Outgoing && g.edges[i].src == x)
  }

  function AsDelta(props: Props): Delta {
    map k | k in props :: Some(props[k])
  }

  /** Of the relationships a MERGE finds, those that hold every property asked for. */
  function Same(g: Graph, ids: set<EdgeId>, props: Props): set<EdgeId> {
    set i | i in ids && i in g.edges && forall k <- props :: k in g.edges[i].props && g.edges[i].props[k] == props[k]
  }

  /** Fewer of those found are the same than are found when, and only when, setting the properties changes one. */
  lemma SameIsCountedExactly(g: Graph, ids: set<EdgeId>, props: Props)
    requires ids <= g.edges.Keys
    ensures |Same(g, ids, props)| < |ids| <==> AnyEdgeChanges(g, ids, AsDelta(props))
  {
    forall i <- ids ensures i !in Same(g, ids, props) <==> Changes(g.edges[i].props, AsDelta(props)) {
      NotTheSame(g.edges[i].props, props);
    }
    ProperIsSmaller(Same(g, ids, props), ids);
    if i :| i in ids && i !in Same(g, ids, props) {}
  }

  lemma NotTheSame(held: Props, props: Props)
    ensures Changes(held, AsDelta(props)) <==> !forall k <- props :: k in held && held[k] == props[k]
  {
    if k :| k in props && !(k in held && held[k] == props[k]) {
      assert k in AsDelta(props);
    }
  }

  lemma ProperIsSmaller<T>(part: set<T>, whole: set<T>)
    requires part <= whole
    ensures |part| < |whole| <==> exists x <- whole :: x !in part
  {
    var rest := whole - part;
    assert whole == part + rest;
    if x :| x in rest {
      assert |rest| >= 1;
    } else {
      assert rest == {} && whole == part;
    }
  }

  function EdgeMerged(g: Graph, a: NodeId, hop: Hop, b: NodeId, offered: Stamp): Graph {
    if a !in g.nodes || b !in g.nodes || Between(g, a, hop, b) != {} then g
    else Relink(WithEdge(g, NewEdge(a, hop, b, map[])), {a, b}, true, offered)
  }

  function EdgePropsSet(g: Graph, a: NodeId, hop: Hop, b: NodeId, delta: Delta, offered: Stamp): Graph {
    if a !in g.nodes || b !in g.nodes then g
    else if Between(g, a, hop, b) == {} then
      // A MERGE that finds none makes one, and tests the properties of the one it made.
      var made := WithEdge(g, NewEdge(a, hop, b, map[]));
      EdgesPatched(Relink(made, {a, b}, Changes(map[], delta), offered), {g.nextEdge}, delta)
    else
      var ids := Between(g, a, hop, b);
      EdgesPatched(Relink(g, {a, b}, AnyEdgeChanges(g, ids, delta), offered), ids, delta)
  }

  function Trimmed(
      g: Graph, a: NodeId, hop: Hop, labels: set<string>, keep: set<NodeId>, unreferenced: Unreferenced,
      offered: Stamp): Graph {
    if a !in g.nodes then g
    else
      var removed := Removed(g, a, hop, labels, keep);
      var drop := DroppedEdges(g, a, hop, removed);
      var kept := Relink(Relink(WithoutEdges(g, drop), removed, true, offered), {a}, drop != {}, offered);
      if unreferenced.Keep? then kept
      else
        var gone := set x | x in removed && x != a && x !in unreferenced.held && !Referenced(kept, x, hop.direction);
        Detached(kept, gone)
  }

  function Related(g: Graph, a: NodeId, b: NodeId, kind: string, props: Props, merges: bool, offered: Stamp): Graph {
    if a !in g.nodes || b !in g.nodes then g
    else
      var ids := Between(g, a, Hop(kind, Outgoing), b);
      if !merges || ids == {} then Relink(WithEdge(g, Edge(kind, a, b, props)), {a, b}, true, offered)
      else
        // Those found are counted, and those of them that are as asked already: the ends are marked if they are fewer.
        EdgesPatched(Relink(g, {a, b}, |Same(g, ids, props)| < |ids|, offered), ids, AsDelta(props))
  }

  function EdgesOf(g: Graph, a: NodeId, hop: Hop): set<EdgeId> {
    set i | i in g.edges && Steps(g.edges[i], a, hop, Other(g.edges[i], a))
  }

  function Unrelated(g: Graph, ids: set<EdgeId>, offered: Stamp): Graph {
    Relink(WithoutEdges(g, ids), Ends(g, ids), true, offered)
  }

  /** What the operation does, `offered` being the stamp the statement offers the nodes it marks. */
  function Run(g: Graph, op: Op, offered: Stamp): Graph {
    match op
    case Merge(id, labels, clauses) =>
      var found := if id in g.nodes then g.nodes[id] else Node(map[], labels, None);
      g.(nodes := g.nodes[id := Written(found, clauses, offered)])
    case Write(id, clauses) =>
      if id !in g.nodes then g else g.(nodes := g.nodes[id := Written(g.nodes[id], clauses, offered)])
    case SubtypeLabels(id, labels) =>
      if id !in g.nodes then g else g.(nodes := g.nodes[id := g.nodes[id].(labels := g.nodes[id].labels + labels)])
    case Patch(id, delta, applies) =>
      if id !in g.nodes then g
      else
        var changed := applies && Changes(g.nodes[id].props, delta);
        var patched := if changed then Patched(g.nodes[id].props, delta) else g.nodes[id].props;
        var stamp := Restamped(g.nodes[id].stamp, changed, offered);
        g.(nodes := g.nodes[id := g.nodes[id].(props := patched, stamp := stamp)])
    case MergeEdge(a, hop, b) => EdgeMerged(g, a, hop, b, offered)
    case EdgeProps(a, hop, b, delta) => EdgePropsSet(g, a, hop, b, delta, offered)
    case DropEdges(a, hop, labels, keep, unreferenced) => Trimmed(g, a, hop, labels, keep, unreferenced, offered)
    case Relate(a, b, kind, props, merges) => Related(g, a, b, kind, props, merges, offered)
    case Unrelate(a, b, kind) => Unrelated(g, Between(g, a, Hop(kind, Outgoing), b), offered)
    case UnrelateAll(a, hop) => Unrelated(g, EdgesOf(g, a, hop), offered)
    case Detach(ids) => Detached(g, ids)
  }

  function Other(e: Edge, n: NodeId): NodeId {
    if e.src == n then e.dst else e.src
  }

  function RunAll(g: Graph, ops: seq<Op>, offered: Stamp): Graph
    decreases |ops|
  {
    if ops == [] then g else RunAll(Run(g, ops[0], offered), ops[1..], offered)
  }
}
