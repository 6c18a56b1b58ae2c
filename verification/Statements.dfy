/**
 * The statements the object manager sends, each as the operations it is made of: the save of a fragment or a view
 * (src/backend/SaveStatementBuilder.ts), the batch, the patch and the edge statements. Each runs whole or not at all.
 */
module Statements {
  import opened Wrappers
  import opened Stamps
  import opened Graphs

  /** The rows of a view's relationships, each with the rows of its nested view, in the order they are written. */
  datatype Rows =
    | NoRows
    | Row(hop: Hop, id: NodeId, labels: set<string>, delta: Delta, subtype: set<string>, rel: Option<Delta>,
          children: Rows, rest: Rows)

  datatype Trim = Trim(hop: Hop, labels: set<string>, keep: set<NodeId>, unreferenced: Unreferenced)

  datatype Mode = CreateOnly | Unchecked | Checked(expected: Carried)

  datatype Statement =
    /** `asLoaded` is what a save given the object as it was loaded requires of the node besides the stamp. */
    | Save(root: NodeId, labels: set<string>, clauses: seq<Clause>, mode: Mode, asLoaded: Node -> bool,
           trims: seq<Trim>, rows: Rows, bagged: seq<(NodeId, seq<Clause>)>)
    | Batch(merged: seq<(NodeId, set<string>, Delta)>)
    | PatchAll(patched: seq<(NodeId, Delta, bool)>)
    | Relating(from: NodeId, to: NodeId, kind: string, props: Props, merges: bool)
    | Unrelating(from: NodeId, to: NodeId, kind: string)
    | UnrelatingAll(from: NodeId, hop: Hop)
    | Deleting(ids: set<NodeId>)

  /** The first pass over the rows: nodes, and the relationships to them. */
  function NodesAndEdges(parent: NodeId, rows: Rows): seq<Op>
    decreases rows
  {
    match rows
    case NoRows => []
    case Row(hop, id, labels, delta, subtype, rel, children, rest) =>
      [Merge(id, labels, [SetProps(delta)]), SubtypeLabels(id, subtype), MergeEdge(parent, hop, id)]
      + NodesAndEdges(id, children) + NodesAndEdges(parent, rest)
  }

  /** The second: the properties of relationship fragments. */
  function EdgeProperties(parent: NodeId, rows: Rows): seq<Op>
    decreases rows
  {
    match rows
    case NoRows => []
    case Row(hop, id, labels, delta, subtype, rel, children, rest) =>
      (if rel.Some? then [EdgeProps(parent, hop, id, rel.value)] else [])
      + EdgeProperties(id, children) + EdgeProperties(parent, rest)
  }

  function Trims(root: NodeId, trims: seq<Trim>): seq<Op> {
    seq(|trims|, i requires 0 <= i < |trims| =>
      DropEdges(root, trims[i].hop, trims[i].labels, trims[i].keep, trims[i].unreferenced))
  }

  function Bagged(bagged: seq<(NodeId, seq<Clause>)>): seq<Op> {
    seq(|bagged|, i requires 0 <= i < |bagged| => Write(bagged[i].0, bagged[i].1))
  }

  function Operations(s: Statement): seq<Op> {
    match s
    case Save(root, labels, clauses, mode, _, trims, rows, bagged) =>
      [if mode.Checked? then Write(root, clauses) else Merge(root, labels, clauses)]
      + Trims(root, trims) + NodesAndEdges(root, rows) + EdgeProperties(root, rows) + Bagged(bagged)
    case Batch(merged) =>
      seq(|merged|, i requires 0 <= i < |merged| => Merge(merged[i].0, merged[i].1, [SetProps(merged[i].2)]))
    case PatchAll(patched) =>
      seq(|patched|, i requires 0 <= i < |patched| => Patch(patched[i].0, patched[i].1, patched[i].2))
    case Relating(from, to, kind, props, merges) => [Relate(from, to, kind, props, merges)]
    case Unrelating(from, to, kind) => [Unrelate(from, to, kind)]
    case UnrelatingAll(from, hop) => [UnrelateAll(from, hop)]
    case Deleting(ids) => [Detach(ids)]
  }

  /** What the statement finds the node to carry. */
  function FoundOf(g: Graph, id: NodeId): Found {
    if id !in g.nodes then Made else if g.nodes[id].stamp.None? then Never else At(g.nodes[id].stamp.value)
  }

  /** Whether a save goes on past its root: otherwise it writes nothing. */
  predicate GoesOn(g: Graph, s: Statement) {
    if !s.Save? then true
    else match s.mode
      case CreateOnly => s.root !in g.nodes
      case Unchecked => true
      case Checked(expected) =>
        && s.root in g.nodes
        && Current(g.nodes[s.root].stamp, expected, s.trims != [])
        && s.asLoaded(g.nodes[s.root])
  }

  function Execute(g: Graph, s: Statement, offered: Stamp): Graph {
    if GoesOn(g, s) then RunAll(g, Operations(s), offered) else g
  }

  // ---- A second pass only sets properties of relationships the first made

  datatype Join = Join(a: NodeId, hop: Hop, b: NodeId)

  /** What is known to be there as a statement's operations run: nodes, and relationships between them. */
  datatype There = There(nodes: set<NodeId>, joins: set<Join>)

  function After(there: There, op: Op): There {
    match op
    case Merge(id, _, _) => there.(nodes := there.nodes + {id})
    case MergeEdge(a, hop, b) =>
      if a in there.nodes && b in there.nodes then there.(joins := there.joins + {Join(a, hop, b)}) else there
    case DropEdges(a, _, _, _, _) => There(there.nodes * {a}, {})
    case Unrelate(_, _, _) => There(there.nodes, {})
    case UnrelateAll(_, _) => There(there.nodes, {})
    case Detach(_) => There({}, {})
    case _ => there
  }

  function AfterAll(there: There, ops: seq<Op>): There
    decreases |ops|
  {
    if ops == [] then there else AfterAll(After(there, ops[0]), ops[1..])
  }

  /** What an operation of a row takes to be there: the node it labels, those it joins, the relationship it sets. */
  predicate Finds(there: There, op: Op) {
    match op
    case SubtypeLabels(id, _) => id in there.nodes
    case MergeEdge(a, _, b) => a in there.nodes && b in there.nodes
    case EdgeProps(a, hop, b, _) => Join(a, hop, b) in there.joins
    case _ => true
  }

  predicate InOrder(there: There, ops: seq<Op>)
    decreases |ops|
  {
    ops != [] ==>
    && Finds(there, ops[0])
    && InOrder(After(there, ops[0]), ops[1..])
  }

  lemma {:induction false} InOrderAppended(there: There, xs: seq<Op>, ys: seq<Op>)
    requires InOrder(there, xs) && InOrder(AfterAll(there, xs), ys)
    ensures InOrder(there, xs + ys)
    ensures AfterAll(there, xs + ys) == AfterAll(AfterAll(there, xs), ys)
    decreases |xs|
  {
    if xs == [] {
      assert xs + ys == ys;
    } else {
      assert (xs + ys)[0] == xs[0] && (xs + ys)[1..] == xs[1..] + ys;
      InOrderAppended(After(there, xs[0]), xs[1..], ys);
    }
  }

  function Joins(parent: NodeId, rows: Rows): set<Join>
    decreases rows
  {
    match rows
    case NoRows => {}
    case Row(hop, id, _, _, _, _, children, rest) =>
      {Join(parent, hop, id)} + Joins(id, children) + Joins(parent, rest)
  }

  lemma One(there: There, op: Op)
    requires Finds(there, op)
    ensures InOrder(there, [op]) && AfterAll(there, [op]) == After(there, op)
  {
    assert [op][1..] == [];
    assert InOrder(After(there, op), []) && AfterAll(After(there, op), []) == After(there, op);
  }

  lemma Three(there: There, ops: seq<Op>)
    requires |ops| == 3 && Finds(there, ops[0]) && Finds(After(there, ops[0]), ops[1])
    requires Finds(After(After(there, ops[0]), ops[1]), ops[2])
    ensures InOrder(there, ops) && AfterAll(there, ops) == After(After(After(there, ops[0]), ops[1]), ops[2])
  {
    var two := After(After(there, ops[0]), ops[1]);
    One(there, ops[0]);
    One(After(there, ops[0]), ops[1]);
    One(two, ops[2]);
    InOrderAppended(there, [ops[0]], [ops[1]]);
    InOrderAppended(there, [ops[0]] + [ops[1]], [ops[2]]);
    assert ops == [ops[0]] + [ops[1]] + [ops[2]];
  }

  lemma {:induction false} FirstPass(there: There, parent: NodeId, rows: Rows)
    requires parent in there.nodes
    ensures InOrder(there, NodesAndEdges(parent, rows))
    ensures there.nodes <= AfterAll(there, NodesAndEdges(parent, rows)).nodes
    ensures there.joins + Joins(parent, rows) <= AfterAll(there, NodesAndEdges(parent, rows)).joins
    decreases rows
  {
    match rows
    case NoRows =>
    case Row(hop, id, labels, delta, subtype, rel, children, rest) =>
      var own := [Merge(id, labels, [SetProps(delta)]), SubtypeLabels(id, subtype), MergeEdge(parent, hop, id)];
      var at := After(After(After(there, own[0]), own[1]), own[2]);
      Three(there, own);
      FirstPass(at, id, children);
      InOrderAppended(there, own, NodesAndEdges(id, children));
      var then' := AfterAll(there, own + NodesAndEdges(id, children));
      FirstPass(then', parent, rest);
      InOrderAppended(there, own + NodesAndEdges(id, children), NodesAndEdges(parent, rest));
  }

  lemma {:induction false} SecondPass(there: There, parent: NodeId, rows: Rows)
    requires Joins(parent, rows) <= there.joins
    ensures InOrder(there, EdgeProperties(parent, rows))
    ensures AfterAll(there, EdgeProperties(parent, rows)) == there
    decreases rows
  {
    match rows
    case NoRows =>
    case Row(hop, id, _, _, _, rel, children, rest) =>
      var own := if rel.Some? then [EdgeProps(parent, hop, id, rel.value)] else [];
      assert InOrder(there, own) && AfterAll(there, own) == there;
      SecondPass(there, id, children);
      InOrderAppended(there, own, EdgeProperties(id, children));
      SecondPass(there, parent, rest);
      InOrderAppended(there, own + EdgeProperties(id, children), EdgeProperties(parent, rest));
  }

  lemma {:induction false} PlainInOrder(there: There, ops: seq<Op>)
    requires forall op <- ops :: !op.SubtypeLabels? && !op.MergeEdge? && !op.EdgeProps?
    ensures InOrder(there, ops)
    ensures forall n <- there.nodes | forall op <- ops :: op.Merge? || op.Write? || (op.DropEdges? && op.a == n)
              :: n in AfterAll(there, ops).nodes
    decreases |ops|
  {
    if ops != [] {
      assert ops[0] in ops;
      PlainInOrder(After(there, ops[0]), ops[1..]);
    }
  }

  /**
   * Every statement labels and joins a row's node only after it has made sure the node is there, and sets a
   * relationship's properties only after it has made sure the relationship is.
   */
  lemma StatementsAreInOrder(g: Graph, s: Statement)
    requires GoesOn(g, s)
    ensures InOrder(There(g.nodes.Keys, {}), Operations(s))
  {
    var start := There(g.nodes.Keys, {});
    if s.Save? {
      var head := [if s.mode.Checked? then Write(s.root, s.clauses) else Merge(s.root, s.labels, s.clauses)];
      var trims := Trims(s.root, s.trims);
      var at := AfterAll(start, head);
      One(start, head[0]);
      PlainInOrder(at, trims);
      InOrderAppended(start, head, trims);
      var trimmed := AfterAll(at, trims);
      assert s.root in trimmed.nodes;
      FirstPass(trimmed, s.root, s.rows);
      InOrderAppended(start, head + trims, NodesAndEdges(s.root, s.rows));
      SecondPass(AfterAll(trimmed, NodesAndEdges(s.root, s.rows)), s.root, s.rows);
      InOrderAppended(start, head + trims + NodesAndEdges(s.root, s.rows), EdgeProperties(s.root, s.rows));
      var written := head + trims + NodesAndEdges(s.root, s.rows) + EdgeProperties(s.root, s.rows);
      PlainInOrder(AfterAll(start, written), Bagged(s.bagged));
      InOrderAppended(start, written, Bagged(s.bagged));
    } else {
      PlainInOrder(start, Operations(s));
    }
  }
}
