/**
 * Optimistic update: load, change, save checked against the stamp that was loaded, and again if the node changed
 * meanwhile (src/manager/StatelessGraphObjectManager.ts, `update`, `changeOf` and `write`). Among any other writers, an
 * update that saves has the effect of its change run once, on the data the node held at the save.
 */
module Updates {
  import opened Wrappers
  import opened Stamps
  import opened Graphs
  import opened Statements
  import opened TokenRuns

  /** What a change does to the fields of an object, which here are the node's properties by their stored names. */
  type Change = Props -> Props

  /** The fields a change altered, one set to null cleared; the id, the stamp and transient fields are ignored. */
  function ChangeOf(before: Props, after: Props, ignored: set<string>): Delta {
    map k | k in before.Keys + after.Keys && k !in ignored && !(k in before && k in after && before[k] == after[k])
      :: if k in after then Some(after[k]) else None
  }

  /** The change as one step: read, changed and written with nothing between. */
  function ReadModifyWrite(props: Props, change: Change, ignored: set<string>): Props {
    Patched(props, ChangeOf(props, change(props), ignored))
  }

  /** What the change gives is what is stored, if it leaves alone the fields a change may not write. */
  lemma ChangeIsWhatIsStored(props: Props, change: Change, ignored: set<string>)
    requires forall k <- ignored ::
      (k in props <==> k in change(props)) && (k in props ==> props[k] == change(props)[k])
    ensures ReadModifyWrite(props, change, ignored) == change(props)
  {
    var after := change(props);
    var stored := ReadModifyWrite(props, change, ignored);
    forall k ensures k in stored <==> k in after {}
  }

  /** The save of what a change altered: checked if the object loaded carries a stamp. */
  function SaveOf(id: NodeId, before: Props, stamp: Option<Carried>, change: Change, ignored: set<string>): Statement {
    Save(id, {}, [SetProps(ChangeOf(before, change(before), ignored))],
         if stamp.Some? then Checked(stamp.value) else Unchecked, (_: Node) => true, [], NoRows, [])
  }

  /** The graph without its stamps. */
  function Content(g: Graph): Graph {
    g.(nodes := map n | n in g.nodes :: g.nodes[n].(stamp := None))
  }

  /** The graph's content after the change is run on the node in one step. */
  function Atomically(g: Graph, id: NodeId, change: Change, ignored: set<string>): Graph
    requires id in g.nodes
  {
    g.(nodes := g.nodes[id := g.nodes[id].(props := ReadModifyWrite(g.nodes[id].props, change, ignored))])
  }

  lemma SaveIsOneWrite(
      g: Graph, id: NodeId, before: Props, stamp: Carried, change: Change, ignored: set<string>, offered: Stamp)
    requires GoesOn(g, SaveOf(id, before, Some(stamp), change, ignored))
    ensures var g' := Execute(g, SaveOf(id, before, Some(stamp), change, ignored), offered);
      && id in g.nodes && id in g'.nodes && g'.edges == g.edges && g'.nextEdge == g.nextEdge
      && g'.nodes[id].props == Patched(g.nodes[id].props, ChangeOf(before, change(before), ignored))
      && g'.nodes[id].labels == g.nodes[id].labels
      && g'.nodes == g.nodes[id := g'.nodes[id]]
  {
    var s := SaveOf(id, before, Some(stamp), change, ignored);
    var clause := SetProps(ChangeOf(before, change(before), ignored));
    var ops := Operations(s);
    assert ops == [Write(id, [clause])] && ops[1..] == [];
    var g' := Run(g, ops[0], offered);
    assert RunAll(g', ops[1..], offered) == g';
    assert [clause][1..] == [];
    assert Applied(ClauseApplied(g.nodes[id], clause), []) == ClauseApplied(g.nodes[id], clause);
  }

  /** A save of what was changed of data the node still holds is the change in one step. */
  lemma SaveOfCurrentIsAtomic(
      g: Graph, id: NodeId, before: Props, stamp: Carried, change: Change, ignored: set<string>, offered: Stamp)
    requires GoesOn(g, SaveOf(id, before, Some(stamp), change, ignored))
    requires id in g.nodes ==> g.nodes[id].props == before
    ensures id in g.nodes
    ensures Content(Execute(g, SaveOf(id, before, Some(stamp), change, ignored), offered))
         == Atomically(Content(g), id, change, ignored)
  {
    SaveIsOneWrite(g, id, before, stamp, change, ignored, offered);
  }

  // ---- Any number of updates at once, in any interleaving

  type ClientId = nat

  /** An update between its load and its save: what was loaded, and what is done with it. */
  datatype Pending = Pending(id: NodeId, before: Props, stamp: Carried, change: Change, ignored: set<string>)

  datatype Shared = Shared(state: State, pending: map<ClientId, Pending>)

  datatype Step =
    /** A load of a stamped node, from a snapshot. */
    | Begin(client: ClientId, id: NodeId, change: Change, ignored: set<string>)
    /** The save, which ends the attempt whether it is refused or not. */
    | Commit(client: ClientId, offered: Stamp)
    /** Anything else: a save, a batch, a patch, an edge operation, a delete. */
    | Meanwhile(event: Event)

  ghost predicate Enabled(s: Shared, step: Step) {
    match step
    case Begin(_, id, _, _) => id in s.state.graph.nodes && s.state.graph.nodes[id].stamp.Some?
    case Commit(client, offered) => client in s.pending && Fresh(s.state, offered)
    case Meanwhile(event) => Fresh(s.state, event.offered)
  }

  function StatementOf(p: Pending): Statement {
    SaveOf(p.id, p.before, Some(p.stamp), p.change, p.ignored)
  }

  ghost function Stepped(s: Shared, step: Step): Shared
    requires Enabled(s, step)
  {
    match step
    case Begin(client, id, change, ignored) =>
      var n := s.state.graph.nodes[id];
      s.(pending := s.pending[client := Pending(id, n.props, Whole(n.stamp.value), change, ignored)])
    case Commit(client, offered) =>
      Shared(Next(s.state, Event(StatementOf(s.pending[client]), offered)), s.pending - {client})
    case Meanwhile(event) => s.(state := Next(s.state, event))
  }

  /** What an attempt loaded is what the node holds for as long as it carries the token that was loaded. */
  ghost predicate Coherent(s: Shared) {
    && Tokened(s.state)
    && forall c <- s.pending :: var p := s.pending[c];
         && p.stamp.data in s.state.used
         && (HasData(s.state.graph, p.id, p.stamp.data) ==> s.state.graph.nodes[p.id].props == p.before)
  }

  ghost predicate IsSharedRun(states: seq<Shared>, steps: seq<Step>) {
    && |states| == |steps| + 1
    && Tokened(states[0].state) && states[0].pending == map[]
    && forall i {:trigger steps[i]} | 0 <= i < |steps| ::
         Enabled(states[i], steps[i]) && states[i + 1] == Stepped(states[i], steps[i])
  }

  lemma SentIsCoherent(s: Shared, event: Event)
    requires Coherent(s) && Fresh(s.state, event.offered)
    ensures Coherent(s.(state := Next(s.state, event)))
  {
    NextIsTokened(s.state, event);
    var g' := Next(s.state, event).graph;
    forall c <- s.pending | HasData(g', s.pending[c].id, s.pending[c].stamp.data)
      ensures g'.nodes[s.pending[c].id].props == s.pending[c].before
    {
      StatementKeeps(s.state.graph, event.statement, event.offered, s.pending[c].id);
    }
  }

  lemma StepIsCoherent(s: Shared, step: Step)
    requires Coherent(s) && Enabled(s, step)
    ensures Coherent(Stepped(s, step))
  {
    match step
    case Begin(_, _, _, _) =>
    case Commit(client, offered) => SentIsCoherent(s, Event(StatementOf(s.pending[client]), offered));
    case Meanwhile(event) => SentIsCoherent(s, event);
  }

  lemma {:induction false} RunIsCoherent(states: seq<Shared>, steps: seq<Step>, i: nat)
    requires IsSharedRun(states, steps) && i < |states|
    ensures Coherent(states[i])
  {
    if i > 0 {
      RunIsCoherent(states, steps, i - 1);
      StepIsCoherent(states[i - 1], steps[i - 1]);
    }
  }

  /** The steps of the store as a sequential one would take them: an update is one step, at its save. */
  ghost predicate AtomicStep(g: Graph, g': Graph, s: Shared, step: Step)
    requires step.Commit? ==> step.client in s.pending
  {
    match step
    case Begin(_, _, _, _) => g' == g
    case Commit(client, _) =>
      var p := s.pending[client];
      if GoesOn(s.state.graph, StatementOf(p)) then p.id in g.nodes && g' == Atomically(g, p.id, p.change, p.ignored)
      else g' == g
    case Meanwhile(event) => g' == Content(Execute(s.state.graph, event.statement, event.offered))
  }

  /**
   * Every run of any number of updates and other statements is a run of the sequential store: a load and a refused save
   * do nothing to the content, and a save that goes on is its change run once on what the node then holds.
   */
  lemma UpdatesRefineAtomic(states: seq<Shared>, steps: seq<Step>)
    requires IsSharedRun(states, steps)
    ensures forall i | 0 <= i < |steps| ::
      && (steps[i].Commit? ==> steps[i].client in states[i].pending)
      && AtomicStep(Content(states[i].state.graph), Content(states[i + 1].state.graph), states[i], steps[i])
  {
    forall i | 0 <= i < |steps|
      ensures steps[i].Commit? ==> steps[i].client in states[i].pending
      ensures AtomicStep(Content(states[i].state.graph), Content(states[i + 1].state.graph), states[i], steps[i])
    {
      RunIsCoherent(states, steps, i);
      if steps[i].Commit? {
        var p := states[i].pending[steps[i].client];
        if GoesOn(states[i].state.graph, StatementOf(p)) {
          SaveOfCurrentIsAtomic(states[i].state.graph, p.id, p.before, p.stamp, p.change, p.ignored, steps[i].offered);
        }
      }
    }
  }

  /** The save is refused exactly when the node is gone or its data was marked changed since the load. */
  lemma RefusedIffMarked(s: Shared, client: ClientId)
    requires client in s.pending
    ensures GoesOn(s.state.graph, StatementOf(s.pending[client]))
       <==> HasData(s.state.graph, s.pending[client].id, s.pending[client].stamp.data)
  {}

  /** A change that counts: what two updates must not do on top of one another. */
  function CountUp(p: Props): Props {
    if "n" in p && p["n"].Number? then p["n" := Number(p["n"].n + 1)] else p
  }

  function Counter(n: int): Props {
    map["n" := Number(n)]
  }

  lemma CountedOnce(n: int)
    ensures CountUp(Counter(n)) == Counter(n + 1)
    ensures ChangeOf(Counter(n), CountUp(Counter(n)), {}) == map["n" := Some(Number(n + 1))]
    ensures forall m :: Patched(Counter(m), map["n" := Some(Number(n + 1))]) == Counter(n + 1)
  {}

  /**
   * Without a stamp to check, another writer's change between the load and the save is written over: two updates that
   * each loaded 0 leave 1, where the second run on what it found would leave 2.
   */
  lemma UnstampedUpdateLoses(g: Graph, id: NodeId, offered: Stamp, other: Stamp)
    requires id in g.nodes && g.nodes[id].props == Counter(0)
    ensures var save := SaveOf(id, Counter(0), None, CountUp, {});
      var once := Execute(g, save, other);
      var twice := Execute(once, save, offered);
      && id in once.nodes && once.nodes[id].props == Counter(1)
      && id in twice.nodes && twice.nodes[id].props == Counter(1)
      && ReadModifyWrite(once.nodes[id].props, CountUp, {}) == Counter(2)
  {
    CountedOnce(0);
    CountedOnce(1);
    CountsOnce(g, id, other, 0);
    CountsOnce(Execute(g, SaveOf(id, Counter(0), None, CountUp, {}), other), id, offered, 1);
  }

  lemma CountsOnce(g: Graph, id: NodeId, offered: Stamp, n: int)
    requires id in g.nodes && g.nodes[id].props == Counter(n)
    ensures var g' := Execute(g, SaveOf(id, Counter(0), None, CountUp, {}), offered);
      id in g'.nodes && g'.nodes[id].props == Counter(1)
  {
    CountedOnce(0);
    var clause := SetProps(map["n" := Some(Number(1))]);
    assert Operations(SaveOf(id, Counter(0), None, CountUp, {})) == [Merge(id, {}, [clause])];
    OneMerge(g, id, clause, offered);
  }

  lemma OneMerge(g: Graph, id: NodeId, clause: Clause, offered: Stamp)
    requires id in g.nodes
    ensures var g' := RunAll(g, [Merge(id, {}, [clause])], offered);
      id in g'.nodes && g'.nodes[id].props == ClauseApplied(g.nodes[id], clause).props
  {
    assert [Merge(id, {}, [clause])][1..] == [] && [clause][1..] == [];
    assert Applied(ClauseApplied(g.nodes[id], clause), []) == ClauseApplied(g.nodes[id], clause);
  }
}
