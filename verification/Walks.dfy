/**
 * A relationship followed to a depth on SQL (src/backend/oracle/OracleViews.ts:42-66,
 * src/backend/sql/SqlViews.ts:139-146): a query unrolled to its depth, a branch for each length, beside the walks of
 * the graph Cypher's `*1..k` takes (src/backend/ViewProjector.ts:96-99, 218-238).
 */
module Walks {
  import opened Graphs

  /** A row of the table of relationships. */
  datatype EdgeRow = EdgeRow(eid: EdgeId, edge: Edge)

  /** A row of the steps along a type: a relationship, from one end to the other. */
  datatype Step = Step(eid: EdgeId, a: NodeId, b: NodeId)

  /** The table lists each relationship of the graph once. */
  ghost predicate Lists(g: Graph, table: seq<EdgeRow>) {
    && (forall i | 0 <= i < |table| :: table[i].eid in g.edges && g.edges[table[i].eid] == table[i].edge)
    && (forall e <- g.edges :: exists i :: 0 <= i < |table| && table[i].eid == e)
    && forall i, j | 0 <= i < j < |table| :: table[i].eid != table[j].eid
  }

  // ---- The query

  function Typed(table: seq<EdgeRow>, kind: string): seq<EdgeRow> {
    if table == [] then []
    else if table[0].edge.kind == kind then [table[0]] + Typed(table[1..], kind)
    else Typed(table[1..], kind)
  }

  function Forward(rows: seq<EdgeRow>): (r: seq<Step>)
    ensures |r| == |rows| && forall i | 0 <= i < |r| :: r[i] == Step(rows[i].eid, rows[i].edge.src, rows[i].edge.dst)
  {
    seq(|rows|, i requires 0 <= i < |rows| => Step(rows[i].eid, rows[i].edge.src, rows[i].edge.dst))
  }

  function Backward(rows: seq<EdgeRow>): (r: seq<Step>)
    ensures |r| == |rows| && forall i | 0 <= i < |r| :: r[i] == Step(rows[i].eid, rows[i].edge.dst, rows[i].edge.src)
  {
    seq(|rows|, i requires 0 <= i < |rows| => Step(rows[i].eid, rows[i].edge.dst, rows[i].edge.src))
  }

  function StepsOf(table: seq<EdgeRow>, hop: Hop): seq<Step> {
    var typed := Typed(table, hop.kind);
    match hop.direction
    case Undirected => Forward(typed) + Backward(typed)
    case Incoming => Backward(typed)
    case Outgoing => Forward(typed)
  }

  /** `SELECT h<length>.b FROM steps h1 JOIN … WHERE h1.a = start …`: the pairs joined, and those told apart. */
  datatype Branch = Branch(length: nat, joins: seq<(nat, nat)>, apart: seq<(nat, nat)>)

  /** The branch of a length joins each step to the one before it, and tells each pair of its relationships apart. */
  ghost predicate IsBranch(branch: Branch, length: nat) {
    && branch.length == length
    && (forall i, j :: (i, j) in branch.joins <==> 2 <= i <= length && j == i - 1)
    && forall i, j :: (i, j) in branch.apart <==> 1 <= i < j <= length
  }

  method Reached(depth: nat) returns (branches: seq<Branch>)
    ensures |branches| == depth && forall i | 0 <= i < depth :: IsBranch(branches[i], i + 1)
  {
    branches := [];
    for k := 1 to depth + 1
      invariant |branches| == k - 1 && forall i | 0 <= i < k - 1 :: IsBranch(branches[i], i + 1)
    {
      var joins: seq<(nat, nat)> := [];
      for i := 2 to k + 1
        invariant forall x, y :: (x, y) in joins <==> 2 <= x < i && y == x - 1
      {
        joins := joins + [(i, i - 1)];
      }
      var apart: seq<(nat, nat)> := [];
      for i := 1 to k
        invariant forall x, y :: (x, y) in apart <==> 1 <= x < i && x < y <= k
      {
        for j := i + 1 to k + 1
          invariant forall x, y :: (x, y) in apart <==> (1 <= x < i && x < y <= k) || (x == i && i < y < j)
        {
          apart := apart + [(i, j)];
        }
      }
      branches := branches + [Branch(k, joins, apart)];
    }
  }

  /** The branch selects these rows of the steps, one for each of its aliases. */
  predicate Selects(branch: Branch, steps: seq<Step>, start: NodeId, rows: seq<nat>) {
    && |rows| == branch.length > 0
    && (forall i | 0 <= i < |rows| :: rows[i] < |steps|)
    && steps[rows[0]].a == start
    && (forall p <- branch.joins :: 1 <= p.0 <= |rows| && 1 <= p.1 <= |rows|
          ==> steps[rows[p.0 - 1]].a == steps[rows[p.1 - 1]].b)
    && forall p <- branch.apart :: 1 <= p.0 <= |rows| && 1 <= p.1 <= |rows|
          ==> steps[rows[p.0 - 1]].eid != steps[rows[p.1 - 1]].eid
  }

  // ---- The walks of the graph

  /** One step of a walk: the relationship it takes and the node it reaches. */
  datatype Link = Link(edge: EdgeId, node: NodeId)

  function EndOf(start: NodeId, walk: seq<Link>): NodeId {
    if walk == [] then start else walk[|walk| - 1].node
  }

  predicate IsWalk(g: Graph, hop: Hop, start: NodeId, walk: seq<Link>)
    decreases |walk|
  {
    walk != [] ==>
      && walk[0].edge in g.edges
      && Steps(g.edges[walk[0].edge], start, hop, walk[0].node)
      && IsWalk(g, hop, walk[0].node, walk[1..])
  }

  predicate NoneTwice(walk: seq<Link>) {
    forall i, j | 0 <= i < j < |walk| :: walk[i].edge != walk[j].edge
  }

  /** A walk that takes no relationship twice: what Cypher's pattern matches. */
  predicate IsTrail(g: Graph, hop: Hop, start: NodeId, walk: seq<Link>) {
    IsWalk(g, hop, start, walk) && NoneTwice(walk)
  }

  lemma {:induction false} WalkBoth(g: Graph, hop: Hop, start: NodeId, a: seq<Link>, b: seq<Link>)
    ensures IsWalk(g, hop, start, a + b) <==> IsWalk(g, hop, start, a) && IsWalk(g, hop, EndOf(start, a), b)
    decreases |a|
  {
    if a == [] {
      assert a + b == b;
    } else {
      WalkBoth(g, hop, a[0].node, a[1..], b);
      assert (a + b)[1..] == a[1..] + b;
    }
  }

  // ---- The steps are the relationships of the graph

  lemma {:induction false} TypedAre(table: seq<EdgeRow>, kind: string, row: EdgeRow)
    ensures row in Typed(table, kind) <==> row in table && row.edge.kind == kind
  {
    if table != [] {
      TypedAre(table[1..], kind, row);
    }
  }

  lemma StepsAre(g: Graph, table: seq<EdgeRow>, hop: Hop, step: Step)
    requires Lists(g, table)
    ensures step in StepsOf(table, hop) <==> step.eid in g.edges && Steps(g.edges[step.eid], step.a, hop, step.b)
  {
    var typed := Typed(table, hop.kind);
    if step.eid in g.edges && Steps(g.edges[step.eid], step.a, hop, step.b) {
      var i :| 0 <= i < |table| && table[i].eid == step.eid;
      TypedAre(table, hop.kind, table[i]);
      var k :| 0 <= k < |typed| && typed[k] == table[i];
      assert step == Forward(typed)[k] || step == Backward(typed)[k];
      assert Forward(typed)[k] in Forward(typed) && Backward(typed)[k] in Backward(typed);
    }
    if step in StepsOf(table, hop) {
      var row := RowOf(typed, step, hop);
      TypedAre(table, hop.kind, row);
      var i :| 0 <= i < |table| && table[i] == row;
    }
  }

  lemma RowOf(typed: seq<EdgeRow>, step: Step, hop: Hop) returns (row: EdgeRow)
    requires match hop.direction
      case Undirected => step in Forward(typed) + Backward(typed)
      case Incoming => step in Backward(typed)
      case Outgoing => step in Forward(typed)
    ensures row in typed && row.eid == step.eid
    ensures (hop.direction != Incoming && row.edge.src == step.a && row.edge.dst == step.b)
      || (hop.direction != Outgoing && row.edge.dst == step.a && row.edge.src == step.b)
  {
    if hop.direction != Incoming && step in Forward(typed) {
      var i :| 0 <= i < |typed| && Forward(typed)[i] == step;
      row := typed[i];
    } else {
      var i :| 0 <= i < |typed| && Backward(typed)[i] == step;
      row := typed[i];
    }
  }

  // ---- The rows of a branch are the trails of its length

  predicate InRange(steps: seq<Step>, rows: seq<nat>) {
    forall i | 0 <= i < |rows| :: rows[i] < |steps|
  }

  function WalkOf(steps: seq<Step>, rows: seq<nat>): (walk: seq<Link>)
    requires InRange(steps, rows)
    ensures |walk| == |rows|
    ensures forall i | 0 <= i < |rows| :: walk[i] == Link(steps[rows[i]].eid, steps[rows[i]].b)
  {
    seq(|rows|, i requires 0 <= i < |rows| => Link(steps[rows[i]].eid, steps[rows[i]].b))
  }

  /** The rows of a step table along one walk. */
  predicate Chained(steps: seq<Step>, start: NodeId, rows: seq<nat>)
    decreases |rows|
  {
    rows != [] ==>
      rows[0] < |steps| && steps[rows[0]].a == start && Chained(steps, steps[rows[0]].b, rows[1..])
  }

  /** Each joined to the one before it. */
  predicate Joined(steps: seq<Step>, rows: seq<nat>)
    requires InRange(steps, rows)
  {
    forall i | 0 < i < |rows| :: steps[rows[i]].a == steps[rows[i - 1]].b
  }

  lemma {:induction false} ChainedIs(steps: seq<Step>, start: NodeId, rows: seq<nat>)
    ensures Chained(steps, start, rows)
      <==> InRange(steps, rows) && Joined(steps, rows) && (rows != [] ==> steps[rows[0]].a == start)
    decreases |rows|
  {
    if rows != [] && rows[0] < |steps| {
      var rest := rows[1..];
      ChainedIs(steps, steps[rows[0]].b, rest);
      assert forall i | 0 <= i < |rest| :: rest[i] == rows[i + 1];
      assert InRange(steps, rest) <==> InRange(steps, rows) by {
        assert InRange(steps, rest) ==> forall i | 0 < i < |rows| :: rows[i] == rest[i - 1];
      }
      if InRange(steps, rows) {
        assert Joined(steps, rows) ==> Joined(steps, rest);
        if Joined(steps, rest) && (rest != [] ==> steps[rest[0]].a == steps[rows[0]].b) {
          forall i | 0 < i < |rows| ensures steps[rows[i]].a == steps[rows[i - 1]].b {
            assert rows[i] == rest[i - 1] && (i > 1 ==> rows[i - 1] == rest[i - 2]);
          }
        }
      }
    }
  }

  predicate Apart(steps: seq<Step>, rows: seq<nat>)
    requires InRange(steps, rows)
  {
    forall i, j | 0 <= i < j < |rows| :: steps[rows[i]].eid != steps[rows[j]].eid
  }

  lemma SelectedAreChained(branch: Branch, steps: seq<Step>, start: NodeId, rows: seq<nat>)
    requires IsBranch(branch, branch.length)
    ensures Selects(branch, steps, start, rows) <==>
      (|rows| == branch.length > 0 && InRange(steps, rows) && Chained(steps, start, rows) && Apart(steps, rows))
  {
    ChainedIs(steps, start, rows);
    if Selects(branch, steps, start, rows) {
      forall i | 0 < i < |rows| ensures steps[rows[i]].a == steps[rows[i - 1]].b {
        assert (i + 1, i) in branch.joins;
      }
      forall i, j | 0 <= i < j < |rows| ensures steps[rows[i]].eid != steps[rows[j]].eid {
        assert (i + 1, j + 1) in branch.apart;
      }
    }
    if |rows| == branch.length > 0 && InRange(steps, rows) && Chained(steps, start, rows) && Apart(steps, rows) {
      forall p <- branch.joins | 1 <= p.0 <= |rows| && 1 <= p.1 <= |rows|
        ensures steps[rows[p.0 - 1]].a == steps[rows[p.1 - 1]].b
      {
        assert (p.0, p.1) in branch.joins;
      }
      forall p <- branch.apart | 1 <= p.0 <= |rows| && 1 <= p.1 <= |rows|
        ensures steps[rows[p.0 - 1]].eid != steps[rows[p.1 - 1]].eid
      {
        assert (p.0, p.1) in branch.apart;
      }
    }
  }

  lemma {:induction false} ChainedIsWalk(g: Graph, table: seq<EdgeRow>, hop: Hop, start: NodeId, rows: seq<nat>)
    requires Lists(g, table) && InRange(StepsOf(table, hop), rows) && Chained(StepsOf(table, hop), start, rows)
    ensures IsWalk(g, hop, start, WalkOf(StepsOf(table, hop), rows))
    decreases |rows|
  {
    var steps := StepsOf(table, hop);
    if rows != [] {
      StepsAre(g, table, hop, steps[rows[0]]);
      ChainedIsWalk(g, table, hop, steps[rows[0]].b, rows[1..]);
      assert WalkOf(steps, rows)[1..] == WalkOf(steps, rows[1..]);
    }
  }

  lemma {:induction false} WalkIsChained(g: Graph, table: seq<EdgeRow>, hop: Hop, start: NodeId, walk: seq<Link>)
    returns (rows: seq<nat>)
    requires Lists(g, table) && IsWalk(g, hop, start, walk)
    ensures InRange(StepsOf(table, hop), rows) && Chained(StepsOf(table, hop), start, rows)
    ensures WalkOf(StepsOf(table, hop), rows) == walk
    decreases |walk|
  {
    var steps := StepsOf(table, hop);
    if walk == [] {
      rows := [];
    } else {
      var step := Step(walk[0].edge, start, walk[0].node);
      StepsAre(g, table, hop, step);
      var i :| 0 <= i < |steps| && steps[i] == step;
      var rest := WalkIsChained(g, table, hop, walk[0].node, walk[1..]);
      rows := [i] + rest;
      assert rows[1..] == rest;
      assert WalkOf(steps, rows) == [walk[0]] + WalkOf(steps, rest);
    }
  }

  /** The branch of a length has a row for each trail of that length, and no other rows. */
  lemma RowsAreTrails(g: Graph, table: seq<EdgeRow>, hop: Hop, start: NodeId, branch: Branch, walk: seq<Link>)
    requires Lists(g, table) && IsBranch(branch, branch.length) && branch.length > 0
    ensures var steps := StepsOf(table, hop);
      (exists rows :: Selects(branch, steps, start, rows) && WalkOf(steps, rows) == walk)
      <==> IsTrail(g, hop, start, walk) && |walk| == branch.length
  {
    var steps := StepsOf(table, hop);
    if rows :| Selects(branch, steps, start, rows) && WalkOf(steps, rows) == walk {
      SelectedAreChained(branch, steps, start, rows);
      ChainedIsWalk(g, table, hop, start, rows);
    }
    if IsTrail(g, hop, start, walk) && |walk| == branch.length {
      var rows := WalkIsChained(g, table, hop, start, walk);
      assert Apart(steps, rows) by {
        forall i, j | 0 <= i < j < |rows| ensures steps[rows[i]].eid != steps[rows[j]].eid {
          assert WalkOf(steps, rows)[i].edge != WalkOf(steps, rows)[j].edge;
        }
      }
      SelectedAreChained(branch, steps, start, rows);
    }
  }

  // ---- One row for each

  ghost predicate OneRowEach(steps: seq<Step>) {
    forall branch: Branch, start, rows, others |
      && IsBranch(branch, branch.length)
      && Selects(branch, steps, start, rows) && Selects(branch, steps, start, others)
      && WalkOf(steps, rows) == WalkOf(steps, others) ::
      rows == others
  }

  ghost predicate NoneListedTwice(steps: seq<Step>) {
    forall i, j | 0 <= i < j < |steps| :: steps[i] != steps[j]
  }

  ghost predicate HasLoop(table: seq<EdgeRow>, kind: string) {
    exists i | 0 <= i < |table| :: table[i].edge.kind == kind && table[i].edge.src == table[i].edge.dst
  }

  lemma {:induction false} SameRows(steps: seq<Step>, start: NodeId, rows: seq<nat>, others: seq<nat>)
    requires NoneListedTwice(steps) && InRange(steps, rows) && InRange(steps, others)
    requires Chained(steps, start, rows) && Chained(steps, start, others)
    requires WalkOf(steps, rows) == WalkOf(steps, others)
    ensures rows == others
    decreases |rows|
  {
    assert |rows| == |WalkOf(steps, rows)| == |others|;
    if rows != [] {
      assert WalkOf(steps, rows)[0] == WalkOf(steps, others)[0];
      assert steps[rows[0]] == steps[others[0]] && rows[0] == others[0];
      assert WalkOf(steps, rows)[1..] == WalkOf(steps, rows[1..]);
      assert WalkOf(steps, others)[1..] == WalkOf(steps, others[1..]);
      SameRows(steps, steps[rows[0]].b, rows[1..], others[1..]);
      assert rows == [rows[0]] + rows[1..] && others == [others[0]] + others[1..];
    }
  }

  lemma TwiceHasTwoRows(steps: seq<Step>, i: nat, j: nat)
    requires i < j < |steps| && steps[i] == steps[j]
    ensures !OneRowEach(steps)
  {
    var branch := Branch(1, [], []);
    assert IsBranch(branch, branch.length);
    SelectedAreChained(branch, steps, steps[i].a, [i]);
    SelectedAreChained(branch, steps, steps[i].a, [j]);
    assert WalkOf(steps, [i]) == WalkOf(steps, [j]);
    assert [i][0] != [j][0];
  }

  lemma {:induction false} TypedOnce(table: seq<EdgeRow>, kind: string)
    requires forall i, j | 0 <= i < j < |table| :: table[i].eid != table[j].eid
    ensures forall i, j | 0 <= i < j < |Typed(table, kind)| :: Typed(table, kind)[i].eid != Typed(table, kind)[j].eid
  {
    if table != [] {
      var rest := Typed(table[1..], kind);
      TypedOnce(table[1..], kind);
      forall j | 0 <= j < |rest| ensures rest[j].eid != table[0].eid {
        TypedAre(table[1..], kind, rest[j]);
        var i :| 0 <= i < |table[1..]| && table[1..][i] == rest[j];
        assert table[i + 1] == rest[j];
      }
    }
  }

  lemma LoopIsListedTwice(table: seq<EdgeRow>, hop: Hop)
    requires hop.direction.Undirected? && HasLoop(table, hop.kind)
    ensures !NoneListedTwice(StepsOf(table, hop))
  {
    var typed, steps := Typed(table, hop.kind), StepsOf(table, hop);
    var i :| 0 <= i < |table| && table[i].edge.kind == hop.kind && table[i].edge.src == table[i].edge.dst;
    TypedAre(table, hop.kind, table[i]);
    var k :| 0 <= k < |typed| && typed[k] == table[i];
    assert steps[k] == Forward(typed)[k] == Backward(typed)[k] == steps[|typed| + k];
  }

  lemma ListedTwiceIsLoop(table: seq<EdgeRow>, hop: Hop, i: nat, j: nat)
    requires forall i, j | 0 <= i < j < |table| :: table[i].eid != table[j].eid
    requires i < j < |StepsOf(table, hop)| && StepsOf(table, hop)[i] == StepsOf(table, hop)[j]
    ensures hop.direction.Undirected? && HasLoop(table, hop.kind)
  {
    var typed := Typed(table, hop.kind);
    TypedOnce(table, hop.kind);
    if hop.direction.Undirected? {
      assert i < |typed| && j == |typed| + i;
      TypedAre(table, hop.kind, typed[i]);
      var k :| 0 <= k < |table| && table[k] == typed[i];
    }
  }

  /** So there is one row for each trail, but for loops followed both ways round, whose trails have two. */
  lemma OneRowUnlessLoops(g: Graph, table: seq<EdgeRow>, hop: Hop)
    requires Lists(g, table)
    ensures OneRowEach(StepsOf(table, hop)) <==> !(hop.direction.Undirected? && HasLoop(table, hop.kind))
  {
    var steps := StepsOf(table, hop);
    if hop.direction.Undirected? && HasLoop(table, hop.kind) {
      LoopIsListedTwice(table, hop);
    }
    if NoneListedTwice(steps) {
      forall branch: Branch, start, rows, others |
        && IsBranch(branch, branch.length)
        && Selects(branch, steps, start, rows) && Selects(branch, steps, start, others)
        && WalkOf(steps, rows) == WalkOf(steps, others)
        ensures rows == others
      {
        SelectedAreChained(branch, steps, start, rows);
        SelectedAreChained(branch, steps, start, others);
        SameRows(steps, start, rows, others);
      }
    } else {
      var i, j :| 0 <= i < j < |steps| && steps[i] == steps[j];
      ListedTwiceIsLoop(table, hop, i, j);
      TwiceHasTwoRows(steps, i, j);
    }
  }

  // ---- The nodes reached

  /** A node the rows of the branches reach. */
  ghost predicate IsReached(branches: seq<Branch>, steps: seq<Step>, start: NodeId, n: NodeId) {
    exists i, rows | 0 <= i < |branches| ::
      Selects(branches[i], steps, start, rows) && EndOf(start, WalkOf(steps, rows)) == n
  }

  /** What stands between two steps that arrive at one node is left out. */
  lemma CutToSame(g: Graph, hop: Hop, start: NodeId, walk: seq<Link>, i: nat, j: nat)
    requires IsWalk(g, hop, start, walk) && i < j < |walk| && walk[i].node == walk[j].node
    ensures var cut := walk[..i + 1] + walk[j + 1..];
      IsWalk(g, hop, start, cut) && cut != [] && EndOf(start, cut) == EndOf(start, walk)
  {
    TakenAt(g, hop, start, walk, i);
    TakenAt(g, hop, start, walk, j);
    WalkBoth(g, hop, start, walk[..i + 1], walk[j + 1..]);
  }

  /** What stands between a node and the step that leads back to it is left out. */
  lemma CutToStart(g: Graph, hop: Hop, start: NodeId, walk: seq<Link>, i: nat, j: nat)
    requires IsWalk(g, hop, start, walk) && i <= j < |walk| && walk[j].node == EndOf(start, walk[..i])
    ensures var cut := walk[..i] + walk[j + 1..];
      IsWalk(g, hop, start, cut) && EndOf(start, cut) == EndOf(start, walk)
  {
    TakenAt(g, hop, start, walk, i);
    TakenAt(g, hop, start, walk, j);
    WalkBoth(g, hop, start, walk[..i], walk[j + 1..]);
  }

  /** A relationship taken twice: a shorter walk leads to the same node. */
  lemma Shorter(g: Graph, hop: Hop, start: NodeId, walk: seq<Link>, i: nat, j: nat) returns (cut: seq<Link>)
    requires IsWalk(g, hop, start, walk) && i < j < |walk| && walk[i].edge == walk[j].edge
    requires EndOf(start, walk) != start
    ensures IsWalk(g, hop, start, cut) && 0 < |cut| < |walk| && EndOf(start, cut) == EndOf(start, walk)
  {
    TakenAt(g, hop, start, walk, i);
    TakenAt(g, hop, start, walk, j);
    if walk[i].node == walk[j].node {
      CutToSame(g, hop, start, walk, i, j);
      cut := walk[..i + 1] + walk[j + 1..];
    } else {
      CutToStart(g, hop, start, walk, i, j);
      cut := walk[..i] + walk[j + 1..];
    }
  }

  lemma TakenAt(g: Graph, hop: Hop, start: NodeId, walk: seq<Link>, i: nat)
    requires IsWalk(g, hop, start, walk) && i < |walk|
    ensures walk[i].edge in g.edges && Steps(g.edges[walk[i].edge], EndOf(start, walk[..i]), hop, walk[i].node)
    ensures IsWalk(g, hop, start, walk[..i]) && IsWalk(g, hop, start, walk[..i + 1])
    ensures IsWalk(g, hop, walk[i].node, walk[i + 1..])
  {
    assert walk == walk[..i] + walk[i..] && walk == walk[..i + 1] + walk[i + 1..];
    WalkBoth(g, hop, start, walk[..i], walk[i..]);
    WalkBoth(g, hop, start, walk[..i + 1], walk[i + 1..]);
  }

  /** A walk to another node has a trail to it that is no longer. */
  lemma {:induction false} WalkHasTrail(g: Graph, hop: Hop, start: NodeId, walk: seq<Link>) returns (trail: seq<Link>)
    requires IsWalk(g, hop, start, walk) && EndOf(start, walk) != start
    ensures IsTrail(g, hop, start, trail) && 0 < |trail| <= |walk| && EndOf(start, trail) == EndOf(start, walk)
    decreases |walk|
  {
    if NoneTwice(walk) {
      trail := walk;
    } else {
      var i, j :| 0 <= i < j < |walk| && walk[i].edge == walk[j].edge;
      var cut := Shorter(g, hop, start, walk, i, j);
      trail := WalkHasTrail(g, hop, start, cut);
    }
  }

  ghost predicate Unrolled(branches: seq<Branch>, depth: nat) {
    |branches| == depth && forall i | 0 <= i < depth :: IsBranch(branches[i], i + 1)
  }

  /** The rows reach the nodes Cypher's `*1..depth` reaches, the start too where a trail leads back to it. */
  lemma SameAsCypher(
      g: Graph, table: seq<EdgeRow>, hop: Hop, start: NodeId, branches: seq<Branch>, depth: nat, n: NodeId)
    requires Lists(g, table) && Unrolled(branches, depth)
    ensures IsReached(branches, StepsOf(table, hop), start, n)
      <==> exists trail :: IsTrail(g, hop, start, trail) && 0 < |trail| <= depth && EndOf(start, trail) == n
  {
    var steps := StepsOf(table, hop);
    if IsReached(branches, steps, start, n) {
      var i, rows :| 0 <= i < |branches| && Selects(branches[i], steps, start, rows)
        && EndOf(start, WalkOf(steps, rows)) == n;
      RowsAreTrails(g, table, hop, start, branches[i], WalkOf(steps, rows));
    }
    if trail :| IsTrail(g, hop, start, trail) && 0 < |trail| <= depth && EndOf(start, trail) == n {
      RowsAreTrails(g, table, hop, start, branches[|trail| - 1], trail);
    }
  }

  /** And of the other nodes exactly those some walk leads to in `depth` relationships or fewer, of any kind. */
  lemma ReachesWithinDepth(
      g: Graph, table: seq<EdgeRow>, hop: Hop, start: NodeId, branches: seq<Branch>, depth: nat, n: NodeId)
    requires Lists(g, table) && Unrolled(branches, depth) && n != start
    ensures IsReached(branches, StepsOf(table, hop), start, n)
      <==> exists walk :: IsWalk(g, hop, start, walk) && |walk| <= depth && EndOf(start, walk) == n
  {
    SameAsCypher(g, table, hop, start, branches, depth, n);
    if walk :| IsWalk(g, hop, start, walk) && |walk| <= depth && EndOf(start, walk) == n {
      var trail := WalkHasTrail(g, hop, start, walk);
    }
  }
}
