/**
 * What is there once a view or a batch is saved: each row's node with its properties, each row's relationship with its,
 * and of a replaced list exactly what it holds (src/backend/SaveStatementBuilder.ts:357-480,
 * src/backend/FragmentBatchStatement.ts:40-60).
 */
module SavedViews {
  import opened Wrappers
  import opened Stamps
  import opened Graphs
  import opened Statements
  import opened TokenRuns
  import opened Effects

  /** One row of a save: the node it is of, and the relationship from the node above it. */
  datatype Placed = Placed(
    parent: NodeId, hop: Hop, id: NodeId, labels: set<string>, delta: Delta, subtype: set<string>, rel: Option<Delta>)

  function AllRows(parent: NodeId, rows: Rows): seq<Placed>
    decreases rows
  {
    match rows
    case NoRows => []
    case Row(hop, id, labels, delta, subtype, rel, children, rest) =>
      [Placed(parent, hop, id, labels, delta, subtype, rel)] + AllRows(id, children) + AllRows(parent, rest)
  }

  // ---- The operations of rows

  predicate IsRowOp(p: Placed, op: Op) {
    || op == Merge(p.id, p.labels, [SetProps(p.delta)])
    || op == SubtypeLabels(p.id, p.subtype)
    || op == MergeEdge(p.parent, p.hop, p.id)
  }

  lemma {:induction false} FirstPassIsOfRows(parent: NodeId, rows: Rows)
    ensures forall op <- NodesAndEdges(parent, rows) :: exists p <- AllRows(parent, rows) :: IsRowOp(p, op)
    ensures forall p <- AllRows(parent, rows), op | IsRowOp(p, op) :: op in NodesAndEdges(parent, rows)
    decreases rows
  {
    match rows
    case NoRows =>
    case Row(hop, id, labels, delta, subtype, rel, children, rest) =>
      FirstPassIsOfRows(id, children);
      FirstPassIsOfRows(parent, rest);
      var own := Placed(parent, hop, id, labels, delta, subtype, rel);
      var ops := [Merge(id, labels, [SetProps(delta)]), SubtypeLabels(id, subtype), MergeEdge(parent, hop, id)];
      assert forall op :: op in ops <==> IsRowOp(own, op);
      assert own in AllRows(parent, rows);
  }

  lemma {:induction false} SecondPassIsOfRows(parent: NodeId, rows: Rows)
    ensures forall op <- EdgeProperties(parent, rows) :: exists p <- AllRows(parent, rows) ::
      p.rel.Some? && op == EdgeProps(p.parent, p.hop, p.id, p.rel.value)
    ensures forall p <- AllRows(parent, rows) | p.rel.Some? ::
      EdgeProps(p.parent, p.hop, p.id, p.rel.value) in EdgeProperties(parent, rows)
    decreases rows
  {
    match rows
    case NoRows =>
    case Row(hop, id, labels, delta, subtype, rel, children, rest) =>
      SecondPassIsOfRows(id, children);
      SecondPassIsOfRows(parent, rest);
      assert Placed(parent, hop, id, labels, delta, subtype, rel) in AllRows(parent, rows);
  }

  lemma {:induction false} JoinsAre(parent: NodeId, rows: Rows)
    ensures forall p <- AllRows(parent, rows) :: Join(p.parent, p.hop, p.id) in Joins(parent, rows)
    decreases rows
  {
    match rows
    case NoRows =>
    case Row(hop, id, labels, delta, subtype, rel, children, rest) =>
      JoinsAre(id, children);
      JoinsAre(parent, rest);
  }

  lemma {:induction false} RunBoth(g: Graph, xs: seq<Op>, ys: seq<Op>, offered: Stamp)
    ensures RunAll(g, xs + ys, offered) == RunAll(RunAll(g, xs, offered), ys, offered)
    decreases |xs|
  {
    if xs == [] {
      assert xs + ys == ys;
    } else {
      RunBoth(Run(g, xs[0], offered), xs[1..], ys, offered);
      assert (xs + ys)[1..] == xs[1..] + ys;
    }
  }

  lemma {:induction false} KnownAfterAll(there: There, g: Graph, ops: seq<Op>, offered: Stamp)
    requires WellFormed(g) && Knows(there, g)
    ensures WellFormed(RunAll(g, ops, offered)) && Knows(AfterAll(there, ops), RunAll(g, ops, offered))
    decreases |ops|
  {
    if ops != [] {
      OpKeepsForm(g, ops[0], offered);
      StillKnown(there, g, ops[0], offered);
      KnownAfterAll(After(there, ops[0]), Run(g, ops[0], offered), ops[1..], offered);
    }
  }

  // ---- Properties of nodes

  /** A property is so: a value, or none. */
  predicate HasValue(props: Props, k: string, v: Option<Value>) {
    if v.Some? then k in props && props[k] == v.value else k !in props
  }

  predicate HasProp(g: Graph, n: NodeId, k: string, v: Option<Value>) {
    n in g.nodes && HasValue(g.nodes[n].props, k, v)
  }

  predicate DeltaSpares(delta: Delta, k: string, v: Option<Value>) {
    k in delta ==> delta[k] == v
  }

  predicate ClausesSpare(clauses: seq<Clause>, k: string, v: Option<Value>) {
    forall c <- clauses :: c.SetProps? ==> DeltaSpares(c.delta, k, v)
  }

  /** An operation that leaves a property of a node so. */
  predicate Spares(op: Op, n: NodeId, k: string, v: Option<Value>) {
    match op
    case Merge(id, _, clauses) => id == n ==> ClausesSpare(clauses, k, v)
    case Write(id, clauses) => id == n ==> ClausesSpare(clauses, k, v)
    case Patch(id, delta, _) => id == n ==> DeltaSpares(delta, k, v)
    case DropEdges(_, _, _, _, unreferenced) => unreferenced.Keep?
    case Detach(ids) => n !in ids
    case _ => true
  }

  lemma {:induction false} ClausesLeave(n: Node, clauses: seq<Clause>, k: string, v: Option<Value>)
    requires ClausesSpare(clauses, k, v) && HasValue(n.props, k, v)
    ensures HasValue(Applied(n, clauses).props, k, v)
    decreases |clauses|
  {
    if clauses != [] {
      assert clauses[0] in clauses;
      ClausesLeave(ClauseApplied(n, clauses[0]), clauses[1..], k, v);
    }
  }

  lemma SparedStays(g: Graph, op: Op, offered: Stamp, n: NodeId, k: string, v: Option<Value>)
    requires HasProp(g, n, k, v) && Spares(op, n, k, v)
    ensures HasProp(Run(g, op, offered), n, k, v)
  {
    if (op.Merge? || op.Write?) && op.id == n {
      ClausesLeave(g.nodes[n], op.clauses, k, v);
    }
  }

  lemma {:induction false} AllSpared(g: Graph, ops: seq<Op>, offered: Stamp, n: NodeId, k: string, v: Option<Value>)
    requires HasProp(g, n, k, v) && forall op <- ops :: Spares(op, n, k, v)
    ensures HasProp(RunAll(g, ops, offered), n, k, v)
    decreases |ops|
  {
    if ops != [] {
      SparedStays(g, ops[0], offered, n, k, v);
      AllSpared(Run(g, ops[0], offered), ops[1..], offered, n, k, v);
    }
  }

  lemma MergeSets(g: Graph, id: NodeId, labels: set<string>, delta: Delta, offered: Stamp, k: string)
    requires k in delta
    ensures HasProp(Run(g, Merge(id, labels, [SetProps(delta)]), offered), id, k, delta[k])
  {
    var found := if id in g.nodes then g.nodes[id] else Node(map[], labels, None);
    var clause := SetProps(delta);
    assert [clause][1..] == [];
    assert Applied(ClauseApplied(found, clause), []) == ClauseApplied(found, clause);
  }

  /** Merged somewhere among operations that spare it, a node holds what it was merged with. */
  lemma MergedAmong(g: Graph, ops: seq<Op>, offered: Stamp, id: NodeId, labels: set<string>, delta: Delta, k: string)
    requires k in delta && Merge(id, labels, [SetProps(delta)]) in ops
    requires forall op <- ops :: Spares(op, id, k, delta[k])
    ensures HasProp(RunAll(g, ops, offered), id, k, delta[k])
  {
    var i :| 0 <= i < |ops| && ops[i] == Merge(id, labels, [SetProps(delta)]);
    var before := RunAll(g, ops[..i], offered);
    assert ops == ops[..i] + ops[i..] && ops[i..][0] == ops[i] && ops[i..][1..] == ops[i + 1..];
    RunBoth(g, ops[..i], ops[i..], offered);
    MergeSets(before, id, labels, delta, offered, k);
    AllSpared(Run(before, ops[i], offered), ops[i + 1..], offered, id, k, delta[k]);
  }

  /** What a save runs before its rows, and its rows and what comes after. */
  function Head(s: Statement): seq<Op>
    requires s.Save?
  {
    [if s.mode.Checked? then Write(s.root, s.clauses) else Merge(s.root, s.labels, s.clauses)] + Trims(s.root, s.trims)
  }

  function RowOps(s: Statement): seq<Op>
    requires s.Save?
  {
    NodesAndEdges(s.root, s.rows) + EdgeProperties(s.root, s.rows) + Bagged(s.bagged)
  }

  lemma SaveIsBoth(g: Graph, s: Statement, offered: Stamp)
    requires s.Save? && GoesOn(g, s)
    ensures Execute(g, s, offered) == RunAll(RunAll(g, Head(s), offered), RowOps(s), offered)
  {
    assert Operations(s) == Head(s) + RowOps(s);
    RunBoth(g, Head(s), RowOps(s), offered);
  }

  /** No other row of the node, and no bag of it, is of another value of the property. */
  ghost predicate Agree(s: Statement, id: NodeId, k: string, v: Option<Value>)
    requires s.Save?
  {
    && (forall q <- AllRows(s.root, s.rows) | q.id == id :: DeltaSpares(q.delta, k, v))
    && forall b <- s.bagged | b.0 == id :: ClausesSpare(b.1, k, v)
  }

  lemma BaggedAre(bagged: seq<(NodeId, seq<Clause>)>)
    ensures forall op <- Bagged(bagged) :: exists b <- bagged :: op == Write(b.0, b.1)
  {
    forall op <- Bagged(bagged) ensures exists b <- bagged :: op == Write(b.0, b.1) {
      var i :| 0 <= i < |Bagged(bagged)| && Bagged(bagged)[i] == op;
      assert bagged[i] in bagged;
    }
  }

  lemma RowOpsSpare(s: Statement, id: NodeId, k: string, v: Option<Value>)
    requires s.Save? && Agree(s, id, k, v)
    ensures forall op <- RowOps(s) :: Spares(op, id, k, v)
  {
    FirstPassIsOfRows(s.root, s.rows);
    SecondPassIsOfRows(s.root, s.rows);
    BaggedAre(s.bagged);
  }

  /** Saved, each row's node is there and holds each of the row's properties, a null one not at all. */
  lemma RowsAreStored(g: Graph, s: Statement, offered: Stamp, p: Placed, k: string)
    requires s.Save? && GoesOn(g, s) && p in AllRows(s.root, s.rows)
    requires k in p.delta && Agree(s, p.id, k, p.delta[k])
    ensures HasProp(Execute(g, s, offered), p.id, k, p.delta[k])
  {
    SaveIsBoth(g, s, offered);
    RowOpsSpare(s, p.id, k, p.delta[k]);
    FirstPassIsOfRows(s.root, s.rows);
    assert IsRowOp(p, Merge(p.id, p.labels, [SetProps(p.delta)]));
    MergedAmong(RunAll(g, Head(s), offered), RowOps(s), offered, p.id, p.labels, p.delta, k);
  }

  /** And so each object of a batch. */
  lemma BatchIsStored(g: Graph, s: Statement, offered: Stamp, i: nat, k: string)
    requires s.Batch? && i < |s.merged| && k in s.merged[i].2
    requires forall m <- s.merged | m.0 == s.merged[i].0 :: DeltaSpares(m.2, k, s.merged[i].2[k])
    ensures HasProp(Execute(g, s, offered), s.merged[i].0, k, s.merged[i].2[k])
  {
    var m := s.merged[i];
    assert Operations(s)[i] == Merge(m.0, m.1, [SetProps(m.2)]);
    forall op <- Operations(s) ensures Spares(op, m.0, k, m.2[k]) {
      var j :| 0 <= j < |Operations(s)| && Operations(s)[j] == op;
      assert s.merged[j] in s.merged;
    }
    MergedAmong(g, Operations(s), offered, m.0, m.1, m.2, k);
  }

  // ---- Relationships

  /** What a save knows to be there once its first pass is run. */
  function Made(g: Graph, s: Statement): There
    requires s.Save?
  {
    AfterAll(AfterAll(There(g.nodes.Keys, {}), Head(s)), NodesAndEdges(s.root, s.rows))
  }

  lemma AfterBoth(there: There, xs: seq<Op>, ys: seq<Op>)
    ensures AfterAll(there, xs + ys) == AfterAll(AfterAll(there, xs), ys)
    decreases |xs|
  {
    if xs == [] {
      assert xs + ys == ys;
    } else {
      assert (xs + ys)[1..] == xs[1..] + ys;
      AfterBoth(After(there, xs[0]), xs[1..], ys);
    }
  }

  lemma RootIsThere(g: Graph, s: Statement)
    requires s.Save? && GoesOn(g, s)
    ensures s.root in AfterAll(There(g.nodes.Keys, {}), Head(s)).nodes
  {
    var head := [if s.mode.Checked? then Write(s.root, s.clauses) else Merge(s.root, s.labels, s.clauses)];
    var at := AfterAll(There(g.nodes.Keys, {}), head);
    One(There(g.nodes.Keys, {}), head[0]);
    PlainInOrder(at, Trims(s.root, s.trims));
    AfterBoth(There(g.nodes.Keys, {}), head, Trims(s.root, s.trims));
  }

  /** After the first pass the store is as far as is known: every row's relationship is there. */
  lemma FirstPassMakes(g: Graph, s: Statement, offered: Stamp)
    requires WellFormed(g) && s.Save? && GoesOn(g, s)
    ensures var g1 := RunAll(RunAll(g, Head(s), offered), NodesAndEdges(s.root, s.rows), offered);
      WellFormed(g1) && Knows(Made(g, s), g1) && Joins(s.root, s.rows) <= Made(g, s).joins
  {
    var start := There(g.nodes.Keys, {});
    var at := AfterAll(start, Head(s));
    KnownAfterAll(start, g, Head(s), offered);
    RootIsThere(g, s);
    FirstPass(at, s.root, s.rows);
    KnownAfterAll(at, RunAll(g, Head(s), offered), NodesAndEdges(s.root, s.rows), offered);
  }

  /** There is a relationship, and each there is holds a property so. */
  ghost predicate EdgesHave(g: Graph, a: NodeId, hop: Hop, b: NodeId, k: string, v: Option<Value>) {
    forall i | i in g.edges && Leads(g.edges[i], a, hop, b) :: HasValue(g.edges[i].props, k, v)
  }

  ghost predicate IsJoined(g: Graph, a: NodeId, hop: Hop, b: NodeId) {
    exists i :: i in g.edges && Leads(g.edges[i], a, hop, b)
  }

  lemma JoinedIs(g: Graph, a: NodeId, hop: Hop, b: NodeId)
    ensures IsJoined(g, a, hop, b) <==> Between(g, a, hop, b) != {}
  {
    if i :| i in g.edges && Leads(g.edges[i], a, hop, b) {
      LeadsIsSteps(g.edges[i], a, hop, b);
      assert i in Between(g, a, hop, b);
    }
    if i :| i in Between(g, a, hop, b) {
      LeadsIsSteps(g.edges[i], a, hop, b);
    }
  }

  /** The properties of relationships known to be there are set, and nothing else. */
  lemma EdgePropsPatch(g: Graph, a: NodeId, hop: Hop, b: NodeId, delta: Delta, offered: Stamp)
    requires a in g.nodes && b in g.nodes && Between(g, a, hop, b) != {}
    ensures var g' := Run(g, EdgeProps(a, hop, b, delta), offered);
      && g'.nodes.Keys == g.nodes.Keys && g'.edges.Keys == g.edges.Keys
      && forall i <- g.edges ::
           g'.edges[i] == if Leads(g.edges[i], a, hop, b) then g.edges[i].(props := Patched(g.edges[i].props, delta))
                          else g.edges[i]
  {
    forall i <- g.edges ensures i in Between(g, a, hop, b) <==> Leads(g.edges[i], a, hop, b) {
      LeadsIsSteps(g.edges[i], a, hop, b);
    }
  }

  /** The operations after the first pass: they set relationships known to be there, and write nodes. */
  predicate IsLater(joins: set<Join>, op: Op) {
    op.Write? || (op.EdgeProps? && Join(op.a, op.hop, op.b) in joins)
  }

  /** Of another two nodes, or another type, or not of another value of the property. */
  predicate SparesEdges(op: Op, p: Placed, k: string, v: Option<Value>) {
    op.EdgeProps? ==>
      (op.hop.kind == p.hop.kind && {op.a, op.b} == {p.parent, p.id} ==> DeltaSpares(op.delta, k, v))
  }

  lemma LaterKeeps(there: There, g: Graph, op: Op, offered: Stamp, p: Placed, k: string, v: Option<Value>)
    requires WellFormed(g) && Knows(there, g) && IsLater(there.joins, op) && SparesEdges(op, p, k, v)
    requires EdgesHave(g, p.parent, p.hop, p.id, k, v)
    ensures EdgesHave(Run(g, op, offered), p.parent, p.hop, p.id, k, v)
  {
    if op.EdgeProps? {
      EdgePropsPatch(g, op.a, op.hop, op.b, op.delta, offered);
      var g' := Run(g, op, offered);
      forall i | i in g'.edges && Leads(g'.edges[i], p.parent, p.hop, p.id) ensures HasValue(g'.edges[i].props, k, v) {
        assert Leads(g.edges[i], p.parent, p.hop, p.id) && HasValue(g.edges[i].props, k, v);
        if Leads(g.edges[i], op.a, op.hop, op.b) {
          SameTwo(g.edges[i], p, op);
          PatchSpares(g.edges[i].props, op.delta, k, v);
        }
      }
    }
  }

  lemma SameTwo(e: Edge, p: Placed, op: Op)
    requires op.EdgeProps? && Leads(e, p.parent, p.hop, p.id) && Leads(e, op.a, op.hop, op.b)
    ensures op.hop.kind == p.hop.kind && {op.a, op.b} == {p.parent, p.id}
  {
    assert {op.a, op.b} == {e.src, e.dst} && {p.parent, p.id} == {e.src, e.dst};
  }

  lemma PatchSpares(props: Props, delta: Delta, k: string, v: Option<Value>)
    requires HasValue(props, k, v) && DeltaSpares(delta, k, v)
    ensures HasValue(Patched(props, delta), k, v)
  {
  }

  lemma {:induction false} LaterAllKeep(
      there: There, g: Graph, ops: seq<Op>, offered: Stamp, p: Placed, k: string, v: Option<Value>)
    requires WellFormed(g) && Knows(there, g) && EdgesHave(g, p.parent, p.hop, p.id, k, v)
    requires forall op <- ops :: IsLater(there.joins, op) && SparesEdges(op, p, k, v)
    ensures EdgesHave(RunAll(g, ops, offered), p.parent, p.hop, p.id, k, v)
    decreases |ops|
  {
    if ops != [] {
      assert ops[0] in ops;
      OpKeepsForm(g, ops[0], offered);
      StillKnown(there, g, ops[0], offered);
      LaterKeeps(there, g, ops[0], offered, p, k, v);
      LaterAllKeep(there, Run(g, ops[0], offered), ops[1..], offered, p, k, v);
    }
  }

  lemma EdgePropsSets(there: There, g: Graph, p: Placed, delta: Delta, offered: Stamp, k: string)
    requires Knows(there, g) && Join(p.parent, p.hop, p.id) in there.joins && k in delta
    ensures EdgesHave(Run(g, EdgeProps(p.parent, p.hop, p.id, delta), offered), p.parent, p.hop, p.id, k, delta[k])
  {
    EdgePropsPatch(g, p.parent, p.hop, p.id, delta, offered);
  }

  lemma {:induction false} LaterKnown(there: There, g: Graph, ops: seq<Op>, offered: Stamp)
    requires WellFormed(g) && Knows(there, g) && forall op <- ops :: IsLater(there.joins, op)
    ensures WellFormed(RunAll(g, ops, offered)) && Knows(there, RunAll(g, ops, offered))
    decreases |ops|
  {
    if ops != [] {
      assert ops[0] in ops;
      OpKeepsForm(g, ops[0], offered);
      StillKnown(there, g, ops[0], offered);
      LaterKnown(there, Run(g, ops[0], offered), ops[1..], offered);
    }
  }

  lemma SetAmong(there: There, g: Graph, ops: seq<Op>, offered: Stamp, p: Placed, delta: Delta, k: string)
    requires WellFormed(g) && Knows(there, g) && k in delta && EdgeProps(p.parent, p.hop, p.id, delta) in ops
    requires forall op <- ops :: IsLater(there.joins, op) && SparesEdges(op, p, k, delta[k])
    ensures EdgesHave(RunAll(g, ops, offered), p.parent, p.hop, p.id, k, delta[k])
  {
    var i :| 0 <= i < |ops| && ops[i] == EdgeProps(p.parent, p.hop, p.id, delta);
    assert ops == ops[..i] + ops[i..] && ops[i..][0] == ops[i] && ops[i..][1..] == ops[i + 1..];
    RunBoth(g, ops[..i], ops[i..], offered);
    LaterKnown(there, g, ops[..i], offered);
    var before := RunAll(g, ops[..i], offered);
    OpKeepsForm(before, ops[i], offered);
    StillKnown(there, before, ops[i], offered);
    EdgePropsSets(there, before, p, delta, offered, k);
    LaterAllKeep(there, Run(before, ops[i], offered), ops[i + 1..], offered, p, k, delta[k]);
  }

  /** The operations of a save after its first pass. */
  function LaterOps(s: Statement): seq<Op>
    requires s.Save?
  {
    EdgeProperties(s.root, s.rows) + Bagged(s.bagged)
  }

  lemma SaveIsTwoPasses(g: Graph, s: Statement, offered: Stamp)
    requires s.Save? && GoesOn(g, s)
    ensures Execute(g, s, offered)
      == RunAll(RunAll(RunAll(g, Head(s), offered), NodesAndEdges(s.root, s.rows), offered), LaterOps(s), offered)
  {
    SaveIsBoth(g, s, offered);
    assert RowOps(s) == NodesAndEdges(s.root, s.rows) + LaterOps(s);
    RunBoth(RunAll(g, Head(s), offered), NodesAndEdges(s.root, s.rows), LaterOps(s), offered);
  }

  lemma LaterOpsAre(g: Graph, s: Statement)
    requires s.Save? && Joins(s.root, s.rows) <= Made(g, s).joins
    ensures forall op <- LaterOps(s) :: IsLater(Made(g, s).joins, op)
  {
    SecondPassIsOfRows(s.root, s.rows);
    JoinsAre(s.root, s.rows);
    BaggedAre(s.bagged);
  }

  /** Saved, each row's relationship is there, whichever way round. */
  lemma RowsAreJoined(g: Graph, s: Statement, offered: Stamp, p: Placed)
    requires WellFormed(g) && s.Save? && GoesOn(g, s) && p in AllRows(s.root, s.rows)
    ensures IsJoined(Execute(g, s, offered), p.parent, p.hop, p.id)
  {
    SaveIsTwoPasses(g, s, offered);
    FirstPassMakes(g, s, offered);
    LaterOpsAre(g, s);
    JoinsAre(s.root, s.rows);
    var g1 := RunAll(RunAll(g, Head(s), offered), NodesAndEdges(s.root, s.rows), offered);
    LaterKnown(Made(g, s), g1, LaterOps(s), offered);
    JoinedIs(Execute(g, s, offered), p.parent, p.hop, p.id);
  }

  /** Of each row of a relationship fragment, it holds the fragment's properties. */
  lemma RowsRelationshipsAreStored(g: Graph, s: Statement, offered: Stamp, p: Placed, k: string)
    requires WellFormed(g) && s.Save? && GoesOn(g, s) && p in AllRows(s.root, s.rows)
    requires p.rel.Some? && k in p.rel.value
    requires forall q <- AllRows(s.root, s.rows) | q.rel.Some? && q.hop.kind == p.hop.kind
      && {q.parent, q.id} == {p.parent, p.id} :: DeltaSpares(q.rel.value, k, p.rel.value[k])
    ensures EdgesHave(Execute(g, s, offered), p.parent, p.hop, p.id, k, p.rel.value[k])
  {
    SaveIsTwoPasses(g, s, offered);
    FirstPassMakes(g, s, offered);
    LaterOpsAre(g, s);
    SecondPassIsOfRows(s.root, s.rows);
    BaggedAre(s.bagged);
    var g1 := RunAll(RunAll(g, Head(s), offered), NodesAndEdges(s.root, s.rows), offered);
    SetAmong(Made(g, s), g1, LaterOps(s), offered, p, p.rel.value, k);
  }

  // ---- A list that is replaced

  /** Of a node that is not to be kept: it has the field's labels, if it is there. */
  predicate IsOfField(g: Graph, x: NodeId, labels: set<string>) {
    x in g.nodes ==> labels <= g.nodes[x].labels
  }

  /** The relationship a row may make. */
  predicate MayLead(op: Op, a: NodeId, hop: Hop, x: NodeId) {
    (op.MergeEdge? || op.EdgeProps?) && Leads(NewEdge(op.a, op.hop, op.b, map[]), a, hop, x)
  }

  /** The operations of a save's rows, none of which leads so. */
  predicate LeadsElsewhere(op: Op, a: NodeId, hop: Hop, x: NodeId) {
    && !MayLead(op, a, hop, x)
    && (op.Merge? || op.Write? || op.SubtypeLabels? || op.MergeEdge? || op.EdgeProps?)
  }

  lemma StaysUnjoined(g: Graph, op: Op, offered: Stamp, a: NodeId, hop: Hop, x: NodeId)
    requires !IsJoined(g, a, hop, x) && LeadsElsewhere(op, a, hop, x)
    ensures !IsJoined(Run(g, op, offered), a, hop, x)
  {
    var g' := Run(g, op, offered);
    forall i | i in g'.edges ensures !Leads(g'.edges[i], a, hop, x) {
      if i in g.edges {
        assert !Leads(g.edges[i], a, hop, x);
      }
    }
  }

  lemma {:induction false} AllStayUnjoined(g: Graph, ops: seq<Op>, offered: Stamp, a: NodeId, hop: Hop, x: NodeId)
    requires !IsJoined(g, a, hop, x) && forall op <- ops :: LeadsElsewhere(op, a, hop, x)
    ensures !IsJoined(RunAll(g, ops, offered), a, hop, x)
    decreases |ops|
  {
    if ops != [] {
      assert ops[0] in ops;
      StaysUnjoined(g, ops[0], offered, a, hop, x);
      AllStayUnjoined(Run(g, ops[0], offered), ops[1..], offered, a, hop, x);
    }
  }

  /** One field trimmed: nothing is joined that was not, and no node is of other labels. */
  lemma TrimOnlyTakes(g: Graph, op: Op, offered: Stamp, a: NodeId, hop: Hop, x: NodeId, labels: set<string>)
    requires op.DropEdges? && op.a == a && a in g.nodes && IsOfField(g, x, labels)
    ensures var g' := Run(g, op, offered);
      a in g'.nodes && IsOfField(g', x, labels) && (IsJoined(g', a, hop, x) ==> IsJoined(g, a, hop, x))
  {
    if op.unreferenced.Keep? {
      ReplacedDropsTheOthers(g, a, op.hop, op.labels, op.keep, offered);
    } else {
      ReplacedDeletesUnreferenced(g, a, op.hop, op.labels, op.keep, op.unreferenced.held, offered);
    }
    var g' := Run(g, op, offered);
    if i :| i in g'.edges && Leads(g'.edges[i], a, hop, x) {
      assert g'.edges[i] == g.edges[i] && Leads(g.edges[i], a, hop, x);
    }
  }

  lemma TrimTakes(g: Graph, op: Op, offered: Stamp, x: NodeId)
    requires WellFormed(g) && op.DropEdges? && op.a in g.nodes && IsOfField(g, x, op.labels) && x !in op.keep
    ensures !IsJoined(Run(g, op, offered), op.a, op.hop, x)
  {
    if op.unreferenced.Keep? {
      ReplacedDropsTheOthers(g, op.a, op.hop, op.labels, op.keep, offered);
    } else {
      ReplacedDeletesUnreferenced(g, op.a, op.hop, op.labels, op.keep, op.unreferenced.held, offered);
    }
    var g' := Run(g, op, offered);
    forall i | i in g'.edges ensures !Leads(g'.edges[i], op.a, op.hop, x) {
      assert g'.edges[i] == g.edges[i] && !IsDropped(g, op.a, op.hop, op.labels, op.keep, i);
      assert Leads(g.edges[i], op.a, op.hop, x) ==> x in g.nodes;
    }
  }

  lemma {:induction false} TrimsTake(g: Graph, root: NodeId, ops: seq<Op>, offered: Stamp, op: Op, x: NodeId)
    requires WellFormed(g) && root in g.nodes && forall it <- ops :: it.DropEdges? && it.a == root
    requires op.DropEdges? && op.a == root && IsOfField(g, x, op.labels) && x !in op.keep
    requires op in ops || !IsJoined(g, root, op.hop, x)
    ensures !IsJoined(RunAll(g, ops, offered), root, op.hop, x)
    decreases |ops|
  {
    if ops != [] {
      assert ops[0] in ops;
      OpKeepsForm(g, ops[0], offered);
      TrimOnlyTakes(g, ops[0], offered, root, op.hop, x, op.labels);
      if ops[0] == op {
        TrimTakes(g, op, offered, x);
      }
      TrimsTake(Run(g, ops[0], offered), root, ops[1..], offered, op, x);
    }
  }

  lemma HeadTakes(g: Graph, s: Statement, offered: Stamp, t: nat, x: NodeId)
    requires WellFormed(g) && s.Save? && GoesOn(g, s) && t < |s.trims| && x !in s.trims[t].keep && x != s.root
    requires IsOfField(g, x, s.trims[t].labels)
    ensures !IsJoined(RunAll(g, Head(s), offered), s.root, s.trims[t].hop, x)
  {
    var first := if s.mode.Checked? then Write(s.root, s.clauses) else Merge(s.root, s.labels, s.clauses);
    var trims, g1 := Trims(s.root, s.trims), Run(g, first, offered);
    OpKeepsForm(g, first, offered);
    WritesOne(g, first, offered);
    assert [first][1..] == [] && RunAll(g1, [], offered) == g1;
    assert RunAll(g, [first], offered) == g1;
    RunBoth(g, [first], trims, offered);
    forall it <- trims ensures it.DropEdges? && it.a == s.root {
      var i :| 0 <= i < |trims| && trims[i] == it;
    }
    assert trims[t] in trims;
    TrimsTake(g1, s.root, trims, offered, trims[t], x);
  }

  /** The rows of the field that is replaced are those to be kept, and no other row leads there. */
  ghost predicate RowsAreKept(s: Statement, t: nat)
    requires s.Save? && t < |s.trims|
  {
    var trim := s.trims[t];
    && (forall x <- trim.keep :: exists p <- AllRows(s.root, s.rows) ::
          p.parent == s.root && p.hop == trim.hop && p.id == x)
    && forall p <- AllRows(s.root, s.rows), x | Leads(NewEdge(p.parent, p.hop, p.id, map[]), s.root, trim.hop, x) ::
         x in trim.keep
  }

  /** Replaced, a field leads exactly to what it holds, of the nodes of its labels. */
  lemma ReplacedListIsExact(g: Graph, s: Statement, offered: Stamp, t: nat, x: NodeId)
    requires WellFormed(g) && s.Save? && GoesOn(g, s) && t < |s.trims| && RowsAreKept(s, t)
    requires x != s.root && IsOfField(g, x, s.trims[t].labels)
    ensures IsJoined(Execute(g, s, offered), s.root, s.trims[t].hop, x) <==> x in s.trims[t].keep
  {
    if x in s.trims[t].keep {
      var p :| p in AllRows(s.root, s.rows) && p.parent == s.root && p.hop == s.trims[t].hop && p.id == x;
      RowsAreJoined(g, s, offered, p);
    } else {
      SaveIsBoth(g, s, offered);
      HeadTakes(g, s, offered, t, x);
      RowsLeadElsewhere(s, t, x);
      AllStayUnjoined(RunAll(g, Head(s), offered), RowOps(s), offered, s.root, s.trims[t].hop, x);
    }
  }

  lemma RowsLeadElsewhere(s: Statement, t: nat, x: NodeId)
    requires s.Save? && t < |s.trims| && RowsAreKept(s, t) && x !in s.trims[t].keep
    ensures forall op <- RowOps(s) :: LeadsElsewhere(op, s.root, s.trims[t].hop, x)
  {
    FirstPassIsOfRows(s.root, s.rows);
    SecondPassIsOfRows(s.root, s.rows);
    BaggedAre(s.bagged);
  }

  // ---- The root

  /** An operation of another node, which does not delete this one. */
  predicate IsOfOthers(op: Op, n: NodeId) {
    match op
    case Merge(id, _, _) => id != n
    case Write(id, _) => id != n
    case SubtypeLabels(id, _) => id != n
    case Patch(id, _, _) => id != n
    case DropEdges(a, _, _, _, _) => a == n
    case Detach(ids) => n !in ids
    case _ => true
  }

  lemma OthersLeaveIt(g: Graph, op: Op, offered: Stamp, n: NodeId)
    requires n in g.nodes && IsOfOthers(op, n)
    ensures n in Run(g, op, offered).nodes && SameNode(g.nodes[n], Run(g, op, offered).nodes[n])
  {
    if op.DropEdges? {
      if op.unreferenced.Keep? {
        ReplacedDropsTheOthers(g, op.a, op.hop, op.labels, op.keep, offered);
      } else {
        ReplacedDeletesUnreferenced(g, op.a, op.hop, op.labels, op.keep, op.unreferenced.held, offered);
      }
    }
  }

  lemma {:induction false} AllLeaveIt(g: Graph, ops: seq<Op>, offered: Stamp, n: NodeId)
    requires n in g.nodes && forall op <- ops :: IsOfOthers(op, n)
    ensures n in RunAll(g, ops, offered).nodes && SameNode(g.nodes[n], RunAll(g, ops, offered).nodes[n])
    decreases |ops|
  {
    if ops != [] {
      assert ops[0] in ops;
      OthersLeaveIt(g, ops[0], offered, n);
      AllLeaveIt(Run(g, ops[0], offered), ops[1..], offered, n);
    }
  }

  /** The root as a save finds it, or makes it. */
  function RootFound(g: Graph, s: Statement): Node
    requires s.Save?
  {
    if s.root in g.nodes then g.nodes[s.root] else Node(map[], s.labels, None)
  }

  /** The root holds what its clauses write over what it held, where no row and no bag of a related node is of it. */
  lemma RootIsStored(g: Graph, s: Statement, offered: Stamp)
    requires s.Save? && GoesOn(g, s)
    requires (forall p <- AllRows(s.root, s.rows) :: p.id != s.root) && forall b <- s.bagged :: b.0 != s.root
    ensures var g' := Execute(g, s, offered);
      s.root in g'.nodes && SameNode(g'.nodes[s.root], Applied(RootFound(g, s), s.clauses))
  {
    var first := if s.mode.Checked? then Write(s.root, s.clauses) else Merge(s.root, s.labels, s.clauses);
    var rest := Trims(s.root, s.trims) + RowOps(s);
    assert Operations(s) == [first] + rest && Operations(s)[1..] == rest;
    FirstPassIsOfRows(s.root, s.rows);
    SecondPassIsOfRows(s.root, s.rows);
    BaggedAre(s.bagged);
    forall op <- Trims(s.root, s.trims) ensures IsOfOthers(op, s.root) {
      var i :| 0 <= i < |s.trims| && Trims(s.root, s.trims)[i] == op;
    }
    AppliedKeepsStamp(RootFound(g, s), s.clauses);
    AllLeaveIt(Run(g, first, offered), rest, offered, s.root);
  }

  /** A create makes its root, of its labels and what it writes, where it is not there, and does nothing where it is. */
  lemma CreatedOnce(g: Graph, s: Statement, offered: Stamp)
    requires s.Save? && s.mode == CreateOnly
    requires (forall p <- AllRows(s.root, s.rows) :: p.id != s.root) && forall b <- s.bagged :: b.0 != s.root
    ensures var g' := Execute(g, s, offered);
      if s.root in g.nodes then g' == g
      else s.root in g'.nodes && SameNode(g'.nodes[s.root], Applied(Node(map[], s.labels, None), s.clauses))
  {
    if s.root !in g.nodes {
      RootIsStored(g, s, offered);
    }
  }
}
