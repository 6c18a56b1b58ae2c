/**
 * What else a save of a view leaves: the labels of its rows, and the bags and labels of the related nodes that are
 * written by a part of their own; and which objects it hands a stamp (src/backend/SaveStatementBuilder.ts:432-536).
 */
module SavedLabels {
  import opened Wrappers
  import opened Stamps
  import opened Graphs
  import opened Statements
  import opened TokenRuns
  import opened Effects
  import opened SavedViews

  predicate HasLabel(g: Graph, id: NodeId, name: string) {
    id in g.nodes && name in g.nodes[id].labels
  }

  /** An operation that takes no such label away, and deletes nothing. */
  predicate SparesLabel(op: Op, id: NodeId, name: string) {
    match op
    case Merge(n, _, clauses) => n == id ==> RemoveLabel(name) !in clauses
    case Write(n, clauses) => n == id ==> RemoveLabel(name) !in clauses
    case DropEdges(_, _, _, _, unreferenced) => unreferenced.Keep?
    case Detach(_) => false
    case _ => true
  }

  lemma {:induction false} ClausesSpareLabel(n: Node, clauses: seq<Clause>, name: string)
    requires name in n.labels && RemoveLabel(name) !in clauses
    ensures name in Applied(n, clauses).labels
    decreases |clauses|
  {
    if clauses != [] {
      assert clauses[0] in clauses;
      ClausesSpareLabel(ClauseApplied(n, clauses[0]), clauses[1..], name);
    }
  }

  lemma {:induction false} LabelStays(g: Graph, ops: seq<Op>, offered: Stamp, id: NodeId, name: string)
    requires HasLabel(g, id, name) && forall op <- ops :: SparesLabel(op, id, name)
    ensures HasLabel(RunAll(g, ops, offered), id, name)
    decreases |ops|
  {
    if ops != [] {
      assert ops[0] in ops;
      if (ops[0].Merge? || ops[0].Write?) && ops[0].id == id {
        ClausesSpareLabel(g.nodes[id], ops[0].clauses, name);
      }
      LabelStays(Run(g, ops[0], offered), ops[1..], offered, id, name);
    }
  }

  lemma {:induction false} LabelIsGiven(
      there: There, g: Graph, ops: seq<Op>, offered: Stamp, id: NodeId, labels: set<string>, name: string)
    requires WellFormed(g) && Knows(there, g) && InOrder(there, ops)
    requires SubtypeLabels(id, labels) in ops && name in labels && forall op <- ops :: SparesLabel(op, id, name)
    ensures HasLabel(RunAll(g, ops, offered), id, name)
    decreases |ops|
  {
    var next := Run(g, ops[0], offered);
    if ops[0] == SubtypeLabels(id, labels) {
      assert HasLabel(next, id, name);
      LabelStays(next, ops[1..], offered, id, name);
    } else {
      OpKeepsForm(g, ops[0], offered);
      StillKnown(there, g, ops[0], offered);
      LabelIsGiven(After(there, ops[0]), next, ops[1..], offered, id, labels, name);
    }
  }

  /** No part of its own takes the label from the row's node. */
  ghost predicate LeavesLabel(s: Statement, id: NodeId, name: string)
    requires s.Save?
  {
    forall b <- s.bagged | b.0 == id :: RemoveLabel(name) !in b.1
  }

  lemma RowOpsSpareLabel(s: Statement, id: NodeId, name: string)
    requires s.Save? && LeavesLabel(s, id, name)
    ensures forall op <- RowOps(s) :: SparesLabel(op, id, name)
  {
    FirstPassIsOfRows(s.root, s.rows);
    SecondPassIsOfRows(s.root, s.rows);
    BaggedAre(s.bagged);
  }

  /** Saved, a row of a subclass has the labels of the subclass, whoever made its node. */
  lemma RowsAreLabelled(g: Graph, s: Statement, offered: Stamp, p: Placed, name: string)
    requires WellFormed(g) && s.Save? && GoesOn(g, s) && p in AllRows(s.root, s.rows)
    requires name in p.subtype && LeavesLabel(s, p.id, name)
    ensures HasLabel(Execute(g, s, offered), p.id, name)
  {
    var start := There(g.nodes.Keys, {});
    var at, first := AfterAll(start, Head(s)), NodesAndEdges(s.root, s.rows);
    KnownAfterAll(start, g, Head(s), offered);
    RootIsThere(g, s);
    FirstPass(at, s.root, s.rows);
    RowOpsSpareLabel(s, p.id, name);
    FirstPassIsOfRows(s.root, s.rows);
    assert IsRowOp(p, SubtypeLabels(p.id, p.subtype));
    var g1 := RunAll(g, Head(s), offered);
    assert forall op <- first :: op in RowOps(s);
    assert forall op <- LaterOps(s) :: op in RowOps(s);
    LabelIsGiven(at, g1, first, offered, p.id, p.subtype, name);
    LabelStays(RunAll(g1, first, offered), LaterOps(s), offered, p.id, name);
    SaveIsTwoPasses(g, s, offered);
  }

  // ---- Parts of their own

  /** The store as the parts of their own find it. */
  function BeforeBags(g: Graph, s: Statement, offered: Stamp): Graph
    requires s.Save?
  {
    RunAll(RunAll(g, Head(s), offered), NodesAndEdges(s.root, s.rows) + EdgeProperties(s.root, s.rows), offered)
  }

  lemma {:induction false} BagsWritten(g: Graph, bagged: seq<(NodeId, seq<Clause>)>, offered: Stamp, i: nat)
    requires i < |bagged| && bagged[i].0 in g.nodes
    requires forall j | 0 <= j < |bagged| && j != i :: bagged[j].0 != bagged[i].0
    ensures var g' := RunAll(g, Bagged(bagged), offered);
      && bagged[i].0 in g'.nodes
      && SameNode(g'.nodes[bagged[i].0], Applied(g.nodes[bagged[i].0], bagged[i].1))
    decreases |bagged|
  {
    var ops := Bagged(bagged);
    var next, rest := Run(g, ops[0], offered), bagged[1..];
    assert ops[1..] == Bagged(rest) && forall j | 0 <= j < |rest| :: rest[j] == bagged[j + 1];
    if i == 0 {
      AppliedKeepsStamp(g.nodes[bagged[0].0], bagged[0].1);
      BaggedAre(rest);
      AllLeaveIt(next, Bagged(rest), offered, bagged[0].0);
    } else {
      BagsWritten(next, rest, offered, i - 1);
    }
  }

  /** A related node with a bag or a labels field is left as its part of its own writes it over what the rows left. */
  lemma BagsAreStored(g: Graph, s: Statement, offered: Stamp, i: nat)
    requires s.Save? && GoesOn(g, s) && i < |s.bagged|
    requires exists p <- AllRows(s.root, s.rows) :: p.id == s.bagged[i].0
    requires forall j | 0 <= j < |s.bagged| && j != i :: s.bagged[j].0 != s.bagged[i].0
    ensures var id, before, after := s.bagged[i].0, BeforeBags(g, s, offered), Execute(g, s, offered);
      && id in before.nodes && id in after.nodes
      && SameNode(after.nodes[id], Applied(before.nodes[id], s.bagged[i].1))
  {
    SaveIsBoth(g, s, offered);
    var passes := NodesAndEdges(s.root, s.rows) + EdgeProperties(s.root, s.rows);
    RunBoth(RunAll(g, Head(s), offered), passes, Bagged(s.bagged), offered);
    assert RowOps(s) == passes + Bagged(s.bagged);
    BagsRowIsThere(g, s, offered, s.bagged[i].0);
    BagsWritten(BeforeBags(g, s, offered), s.bagged, offered, i);
  }

  lemma {:induction false} StaysThere(g: Graph, ops: seq<Op>, offered: Stamp, id: NodeId)
    requires id in g.nodes || exists op <- ops :: op.Merge? && op.id == id
    requires forall op <- ops :: !op.DropEdges? && !op.Detach?
    ensures id in RunAll(g, ops, offered).nodes
    decreases |ops|
  {
    if ops != [] {
      assert ops[0] in ops;
      if ops[0].Merge? && ops[0].id == id {
        assert id in Run(g, ops[0], offered).nodes;
      }
      StaysThere(Run(g, ops[0], offered), ops[1..], offered, id);
    }
  }

  lemma BagsRowIsThere(g: Graph, s: Statement, offered: Stamp, id: NodeId)
    requires s.Save? && exists p <- AllRows(s.root, s.rows) :: p.id == id
    ensures id in BeforeBags(g, s, offered).nodes
  {
    var p :| p in AllRows(s.root, s.rows) && p.id == id;
    FirstPassIsOfRows(s.root, s.rows);
    SecondPassIsOfRows(s.root, s.rows);
    var ops := NodesAndEdges(s.root, s.rows) + EdgeProperties(s.root, s.rows);
    var merge := Merge(p.id, p.labels, [SetProps(p.delta)]);
    assert IsRowOp(p, merge) && merge in ops;
    StaysThere(RunAll(g, Head(s), offered), ops, offered, id);
  }
}
