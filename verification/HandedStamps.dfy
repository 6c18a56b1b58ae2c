/**
 * Which objects a statement hands a stamp, and what with: an object that saves, and was not stale, goes on being
 * current (src/manager/StatelessGraphObjectManager.ts:1229-1239, src/model/Stamps.ts:43-59).
 */
module HandedStamps {
  import opened Wrappers
  import opened Stamps
  import opened Graphs
  import opened Statements
  import opened TokenRuns
  import opened SavedViews
  import opened ObjectRuns

  /** The nodes whose objects a save or a batch hands a stamp: its root's, its rows' and those of parts of their own. */
  lemma HandedAre(s: Statement, n: NodeId)
    requires s.Save? || s.Batch?
    ensures n in WrittenNodes(s) <==>
      if s.Batch? then exists m <- s.merged :: m.0 == n
      else
        || n == s.root
        || (exists p <- AllRows(s.root, s.rows) :: p.id == n)
        || exists b <- s.bagged :: b.0 == n
  {
    if s.Batch? {
      BatchHands(s, n);
    } else {
      SaveHands(s, n);
    }
  }

  lemma BatchHands(s: Statement, n: NodeId)
    requires s.Batch?
    ensures n in WrittenNodes(s) <==> exists m <- s.merged :: m.0 == n
  {
    if m :| m in s.merged && m.0 == n {
      var i :| 0 <= i < |s.merged| && s.merged[i] == m;
      assert Operations(s)[i] == Merge(m.0, m.1, [SetProps(m.2)]);
    }
    if op :| op in Operations(s) && op.Merge? && op.id == n {
      var i :| 0 <= i < |s.merged| && Operations(s)[i] == op;
      assert s.merged[i] in s.merged;
    }
  }

  lemma SaveHands(s: Statement, n: NodeId)
    requires s.Save?
    ensures n in WrittenNodes(s) <==>
      || n == s.root
      || (exists p <- AllRows(s.root, s.rows) :: p.id == n)
      || exists b <- s.bagged :: b.0 == n
  {
    var first := if s.mode.Checked? then Write(s.root, s.clauses) else Merge(s.root, s.labels, s.clauses);
    var rest := Trims(s.root, s.trims) + RowOps(s);
    assert Operations(s) == [first] + rest;
    assert first in Operations(s);
    FirstPassIsOfRows(s.root, s.rows);
    SecondPassIsOfRows(s.root, s.rows);
    BaggedAre(s.bagged);
    if p :| p in AllRows(s.root, s.rows) && p.id == n {
      assert IsRowOp(p, Merge(p.id, p.labels, [SetProps(p.delta)]));
    }
    if b :| b in s.bagged && b.0 == n {
      var i :| 0 <= i < |s.bagged| && s.bagged[i] == b;
      assert Bagged(s.bagged)[i] == Write(b.0, b.1);
    }
    forall op <- Trims(s.root, s.trims) ensures op.DropEdges? {
      var i :| 0 <= i < |s.trims| && Trims(s.root, s.trims)[i] == op;
    }
  }

  /** The token of its node's data an object carries is the node's own. */
  ghost predicate IsCurrent(w: World, o: ObjectId) {
    && o in w.objects && w.objects[o].carried.Some?
    && HasData(w.state.graph, w.objects[o].node, w.objects[o].carried.value.data)
  }

  ghost predicate IsStamped(w: World, o: ObjectId) {
    && o in w.objects && w.objects[o].node in w.state.graph.nodes
    && w.state.graph.nodes[w.objects[o].node].stamp.Some?
  }

  /** An object a statement is handed back to is current after it, unless it was stale before. */
  lemma HandedIsCurrent(w: World, a: Action, o: ObjectId)
    requires Sound(w) && Allowed(w, a) && a.Send? && o in a.handed && GoesOn(w.state.graph, a.event.statement)
    requires IsStamped(Act(w, a), o)
    ensures IsCurrent(Act(w, a), o) <==> !Stale(w, o)
    ensures IsCurrent(Act(w, a), o) && w.objects[o].carried.Some? && LinksAre(w, o) ==> LinksAre(Act(w, a), o)
  {
    StatementKeeps(w.state.graph, a.event.statement, a.event.offered, w.objects[o].node);
  }

  /** And so is the token of its relationships. */
  ghost predicate LinksAre(w: World, o: ObjectId) {
    && IsStamped(w, o) && w.objects[o].carried.Some?
    && w.objects[o].carried.value.links == Some(w.state.graph.nodes[w.objects[o].node].stamp.value.links)
  }

  /** No other object's stamp is touched, nor any by a statement that is refused. */
  lemma OthersKeepTheirs(w: World, a: Action)
    requires Allowed(w, a) && a.Send?
    ensures Act(w, a).objects.Keys == w.objects.Keys && Act(w, a).state == Next(w.state, a.event)
    ensures forall o <- w.objects | o !in a.handed || !GoesOn(w.state.graph, a.event.statement) ::
      Act(w, a).objects[o] == w.objects[o]
    ensures forall o <- w.objects :: Act(w, a).objects[o].node == w.objects[o].node
  {
  }

  /** Loaded, an object carries its node's stamp, and the store is as it was. */
  lemma LoadedIsCurrent(w: World, o: ObjectId, n: NodeId)
    requires n in w.state.graph.nodes && w.state.graph.nodes[n].stamp.Some?
    ensures Allowed(w, Load(o, n))
    ensures var w' := Act(w, Load(o, n));
      w'.state == w.state && IsCurrent(w', o) && LinksAre(w', o) && w'.objects[o].node == n
    ensures forall other <- w.objects | other != o ::
      other in Act(w, Load(o, n)).objects && Act(w, Load(o, n)).objects[other] == w.objects[other]
  {
  }

  /** So an object that is loaded, and is handed every stamp while it is current, is never refused its own save. */
  lemma CurrentSaveGoesOn(w: World, o: ObjectId, s: Statement)
    requires IsCurrent(w, o) && s.Save? && s.root == w.objects[o].node
    requires s.mode == Checked(w.objects[o].carried.value)
    requires s.trims != [] ==> LinksAre(w, o)
    requires s.asLoaded(w.state.graph.nodes[s.root])
    ensures GoesOn(w.state.graph, s)
  {
  }
}
