/**
 * The stamps objects carry, over runs in which any statement may be followed by handing stamps back to any of the
 * objects it wrote: once an object is stale it stays stale until it is loaded again.
 */
module ObjectRuns {
  import opened Wrappers
  import opened Stamps
  import opened Graphs
  import opened Statements
  import opened TokenRuns

  type ObjectId = nat

  /** An object of a node, and the stamp it carries. */
  datatype Object = Object(node: NodeId, carried: Option<Carried>)

  datatype World = World(state: State, objects: map<ObjectId, Object>)

  datatype Action =
    /** A statement, and the objects it hands stamps back to: none of one that is refused. */
    | Send(event: Event, handed: set<ObjectId>)
    | Load(loaded: ObjectId, node: NodeId)

  /** The nodes a statement reads the stamps of, before and after it writes them. */
  function WrittenNodes(s: Statement): set<NodeId> {
    set op | op in Operations(s) && (op.Merge? || op.Write?) :: op.id
  }

  function LoadedStamp(g: Graph, n: NodeId): Option<Carried> {
    if n in g.nodes && g.nodes[n].stamp.Some? then Some(Whole(g.nodes[n].stamp.value)) else None
  }

  function Handed(g: Graph, g': Graph, o: Object): Object {
    if o.node in g'.nodes && g'.nodes[o.node].stamp.Some?
    then o.(carried := Some(HandBack(o.carried, FoundOf(g, o.node), g'.nodes[o.node].stamp.value)))
    else o
  }

  function Act(w: World, a: Action): World {
    match a
    case Send(event, handed) =>
      var next := Next(w.state, event);
      if GoesOn(w.state.graph, event.statement) then
        World(next, map o | o in w.objects ::
          if o in handed then Handed(w.state.graph, next.graph, w.objects[o]) else w.objects[o])
      else World(next, w.objects)
    case Load(loaded, node) =>
      w.(objects := w.objects[loaded := Object(node, LoadedStamp(w.state.graph, node))])
  }

  ghost predicate Allowed(w: World, a: Action) {
    match a
    case Send(event, handed) =>
      && Fresh(w.state, event.offered)
      && forall o <- handed :: o in w.objects && w.objects[o].node in WrittenNodes(event.statement)
    case Load(_, _) => true
  }

  /** Every token an object carries was once a node's. */
  ghost predicate Sound(w: World) {
    && Tokened(w.state)
    && forall o <- w.objects | w.objects[o].carried.Some? ::
         && w.objects[o].carried.value.data in w.state.used
         && (w.objects[o].carried.value.links.Some? ==> w.objects[o].carried.value.links.value in w.state.used)
  }

  ghost predicate IsWorldRun(worlds: seq<World>, actions: seq<Action>) {
    && |worlds| == |actions| + 1
    && Sound(worlds[0])
    && forall i {:trigger actions[i]} | 0 <= i < |actions| ::
         Allowed(worlds[i], actions[i]) && worlds[i + 1] == Act(worlds[i], actions[i])
  }

  /** The object carries a stamp, and its data token is not its node's. */
  ghost predicate Stale(w: World, o: ObjectId) {
    && o in w.objects && w.objects[o].carried.Some?
    && !HasData(w.state.graph, w.objects[o].node, w.objects[o].carried.value.data)
  }

  lemma ActIsSound(w: World, a: Action)
    requires Sound(w) && Allowed(w, a)
    ensures Sound(Act(w, a))
  {
    if a.Send? {
      NextIsTokened(w.state, a.event);
    }
  }

  /** No statement, checked or unchecked, and no stamp it hands back, makes a stale object current. */
  lemma StaleAfterOne(w: World, a: Action, o: ObjectId)
    requires Sound(w) && Allowed(w, a) && Stale(w, o)
    requires !(a.Load? && a.loaded == o)
    ensures Stale(Act(w, a), o) && Act(w, a).objects[o].node == w.objects[o].node
    ensures Act(w, a).objects[o].carried.value.data == w.objects[o].carried.value.data
  {
    if a.Send? {
      StatementKeeps(w.state.graph, a.event.statement, a.event.offered, w.objects[o].node);
    }
  }

  /** Stale stays stale, over any run in which the object is not loaded again. */
  lemma {:induction false} StaleStaysStale(worlds: seq<World>, actions: seq<Action>, i: nat, j: nat, o: ObjectId)
    requires IsWorldRun(worlds, actions) && i <= j < |worlds|
    requires Stale(worlds[i], o)
    requires forall k | i <= k < j :: !(actions[k].Load? && actions[k].loaded == o)
    ensures Stale(worlds[j], o)
    decreases j - i
  {
    if i < j {
      RunIsSound(worlds, actions, j - 1);
      StaleStaysStale(worlds, actions, i, j - 1, o);
      StaleAfterOne(worlds[j - 1], actions[j - 1], o);
    }
  }

  lemma {:induction false} RunIsSound(worlds: seq<World>, actions: seq<Action>, i: nat)
    requires IsWorldRun(worlds, actions) && i < |worlds|
    ensures Sound(worlds[i])
  {
    if i > 0 {
      RunIsSound(worlds, actions, i - 1);
      ActIsSound(worlds[i - 1], actions[i - 1]);
    }
  }

  /** So every checked save of it is refused, and writes nothing. */
  lemma StaleSavesAreRefused(
      worlds: seq<World>, actions: seq<Action>, i: nat, j: nat, o: ObjectId, s: Statement, offered: Stamp)
    requires IsWorldRun(worlds, actions) && i <= j < |worlds|
    requires Stale(worlds[i], o)
    requires forall k | i <= k < j :: !(actions[k].Load? && actions[k].loaded == o)
    requires o in worlds[j].objects && worlds[j].objects[o].carried.Some?
    requires s.Save? && s.root == worlds[j].objects[o].node && s.mode == Checked(worlds[j].objects[o].carried.value)
    ensures !GoesOn(worlds[j].state.graph, s)
    ensures Execute(worlds[j].state.graph, s, offered) == worlds[j].state.graph
  {
    StaleStaysStale(worlds, actions, i, j, o);
  }

  /**
   * An object that carries a stamp without a links token is given one by a statement only with a data token its node
   * does not carry, so a save that compares the links is refused for the data.
   */
  lemma LinksTokenComesStale(w: World, a: Action, o: ObjectId)
    requires Sound(w) && Allowed(w, a) && a.Send?
    requires o in w.objects && w.objects[o].carried.Some? && w.objects[o].carried.value.links.None?
    requires Act(w, a).objects[o].carried.value.links.Some?
    ensures Stale(Act(w, a), o)
  {
    var before, after := w.objects[o], Act(w, a).objects[o];
    StatementKeeps(w.state.graph, a.event.statement, a.event.offered, before.node);
    assert !FoundOf(w.state.graph, before.node).At?;
    assert after.carried.value.data == before.carried.value.data;
  }

  // ---- What a data token an object carries is worth

  lemma {:induction false} TokenMeansUnchanged(
      worlds: seq<World>, actions: seq<Action>, i: nat, j: nat, n: NodeId, token: Token)
    requires IsWorldRun(worlds, actions) && i <= j < |worlds|
    requires HasData(worlds[i].state.graph, n, token) && HasData(worlds[j].state.graph, n, token)
    ensures worlds[i].state.graph.nodes[n].props == worlds[j].state.graph.nodes[n].props
    decreases j - i
  {
    if i < j {
      RunIsSound(worlds, actions, i);
      RunIsSound(worlds, actions, j - 1);
      WorldUsedGrows(worlds, actions, i, j - 1);
      ActKeeps(worlds, actions, i, j, n, token);
      TokenMeansUnchanged(worlds, actions, i, j - 1, n, token);
    }
  }

  /**
   * A checked save of an object goes on only over the properties its node held at `i`, when the object carried the data
   * token it carries now and was not stale, whatever was sent, handed back and loaded between.
   */
  lemma CheckedSaveIsOverUnchanged(worlds: seq<World>, actions: seq<Action>, i: nat, j: nat, o: ObjectId, s: Statement)
    requires IsWorldRun(worlds, actions) && i <= j < |worlds|
    requires o in worlds[i].objects && worlds[i].objects[o].carried.Some? && !Stale(worlds[i], o)
    requires o in worlds[j].objects && worlds[j].objects[o].carried.Some?
    requires worlds[j].objects[o].node == worlds[i].objects[o].node
    requires worlds[j].objects[o].carried.value.data == worlds[i].objects[o].carried.value.data
    requires s.Save? && s.root == worlds[j].objects[o].node && s.mode == Checked(worlds[j].objects[o].carried.value)
    requires GoesOn(worlds[j].state.graph, s)
    ensures s.root in worlds[i].state.graph.nodes && s.root in worlds[j].state.graph.nodes
    ensures worlds[j].state.graph.nodes[s.root].props == worlds[i].state.graph.nodes[s.root].props
  {
    TokenMeansUnchanged(worlds, actions, i, j, s.root, worlds[j].objects[o].carried.value.data);
  }

  /** Where a node carries such a token after an action it carried it before, over the same properties. */
  lemma ActKeeps(worlds: seq<World>, actions: seq<Action>, i: nat, j: nat, n: NodeId, token: Token)
    requires IsWorldRun(worlds, actions) && i < j < |worlds|
    requires HasData(worlds[i].state.graph, n, token) && HasData(worlds[j].state.graph, n, token)
    requires Sound(worlds[i]) && Sound(worlds[j - 1]) && worlds[i].state.used <= worlds[j - 1].state.used
    ensures HasData(worlds[j - 1].state.graph, n, token)
    ensures worlds[j - 1].state.graph.nodes[n].props == worlds[j].state.graph.nodes[n].props
  {
    if actions[j - 1].Send? {
      StatementKeeps(worlds[j - 1].state.graph, actions[j - 1].event.statement, actions[j - 1].event.offered, n);
    }
  }

  lemma {:induction false} WorldUsedGrows(worlds: seq<World>, actions: seq<Action>, i: nat, j: nat)
    requires IsWorldRun(worlds, actions) && i <= j < |worlds|
    ensures worlds[i].state.used <= worlds[j].state.used
    decreases j - i
  {
    if i < j {
      WorldUsedGrows(worlds, actions, i, j - 1);
      assert worlds[j] == Act(worlds[j - 1], actions[j - 1]);
    }
  }
}
