/**
 * `update` as the loop it is: load, change, save, and again while the save is found stale
 * (src/manager/StatelessGraphObjectManager.ts:511-540), over a store that other writers change between its statements.
 */
module UpdateLoop {
  import opened Wrappers
  import opened Stamps
  import opened Graphs
  import opened Statements
  import opened TokenRuns
  import opened Updates

  /** The stamps a random source will make: each token one the store has never been given. */
  predicate Unseen(used: set<Token>, supply: seq<Stamp>)
    decreases |supply|
  {
    supply != [] ==>
    && supply[0].data !in used && supply[0].links !in used
    && Unseen(used + {supply[0].data, supply[0].links}, supply[1..])
  }

  /**
   * What an update is asked: the node, the change and the fields it may not write, whether the object's class has a
   * stamp field, and how many attempts it may make.
   */
  datatype Request = Request(id: NodeId, change: Change, ignored: set<string>, stamped: bool, attempts: int)

  /**
   * What meets one attempt: what other writers send between its load and its save, whether the engine turns the save
   * away every time it is run, as contended, and what others send after a refusal.
   */
  datatype Others = Others(between: seq<Statement>, turnedAway: bool, after: seq<Statement>)

  /** How many statements are run at an attempt: after a save that is turned away, none looks for the node. */
  function Spent(m: Others): nat {
    |m.between| + if m.turnedAway then 0 else 1 + |m.after|
  }

  function Total(others: seq<Others>): nat {
    if others == [] then 0 else Spent(others[0]) + Total(others[1..])
  }

  datatype Outcome =
    /** The object saved; `checked` says the object loaded carried a stamp. */
    | Saved(checked: bool)
    /** No such node, or it was deleted meanwhile. */
    | Missing
    /** StaleObjectException, thrown. */
    | Stale(deleted: bool)
    /** The engine's own failure, thrown. */
    | TurnedAway

  /** What came of one attempt of an update; `checked` says the object loaded carried a stamp. */
  datatype Attempted = NotThere | Went(checked: bool) | Refused | Contended(checked: bool)

  /** Whether each statement sent from `start` to `end` was another writer's, or left the store as it was. */
  ghost predicate OthersOnly(states: seq<State>, events: seq<Event>, start: nat, end: nat, others: seq<Others>)
    requires end <= |events| && |states| == |events| + 1
  {
    forall k {:trigger events[k]} | start <= k < end ::
      SentBy(others, events[k].statement) || states[k + 1].graph == states[k].graph
  }

  ghost predicate SentBy(others: seq<Others>, s: Statement) {
    exists m <- others :: s in m.between || s in m.after
  }

  lemma OneMore(states: seq<State>, events: seq<Event>, start: nat, others: seq<Others>, state: State, event: Event)
    requires |states| == |events| + 1 && start <= |events|
    requires OthersOnly(states, events, start, |events|, others)
    ensures OthersOnly(states + [state], events + [event], start, |events|, others)
    ensures SentBy(others, event.statement) || state.graph == states[|events|].graph
      ==> OthersOnly(states + [state], events + [event], start, |events| + 1, others)
  {}

  /** A save that goes on with the stamp of an earlier load is the change in one step on what the node then holds. */
  lemma SavedIsAtomic(states: seq<State>, events: seq<Event>, loadedAt: nat, p: Pending)
    requires IsRun(states, events) && loadedAt < |events|
    requires HasData(states[loadedAt].graph, p.id, p.stamp.data)
    requires states[loadedAt].graph.nodes[p.id].props == p.before
    requires events[|events| - 1].statement == StatementOf(p)
    requires GoesOn(states[|events| - 1].graph, StatementOf(p))
    ensures p.id in states[|events| - 1].graph.nodes
    ensures Content(states[|events|].graph)
      == Atomically(Content(states[|events| - 1].graph), p.id, p.change, p.ignored)
  {
    var last := |events| - 1;
    DataTokenDeterminesProperties(states, events, loadedAt, last, p.id, p.stamp.data);
    SaveOfCurrentIsAtomic(states[last].graph, p.id, p.before, p.stamp, p.change, p.ignored, events[last].offered);
    assert states[last + 1] == Next(states[last], events[last]);
  }

  /** The history is the one before, and what was sent since. */
  ghost predicate GoneOn(states: seq<State>, now: seq<State>, events: seq<Event>, sent: seq<Event>) {
    states <= now && events <= sent
  }

  /** An update that saves did so with its last statement, and had the effect of its change in one step there. */
  ghost predicate SavedLast(
      states: seq<State>, events: seq<Event>, start: nat, others: seq<Others>, graph: Graph, u: Request, checked: bool)
  {
    && |states| == |events| + 1 && start < |events|
    && OthersOnly(states, events, start, |events| - 1, others)
    && (checked ==>
          && u.id in states[|events| - 1].graph.nodes
          && Content(graph) == Atomically(Content(states[|events| - 1].graph), u.id, u.change, u.ignored))
  }

  /** Whatever it comes to but a save, it had no effect at all. */
  ghost predicate NothingDone(states: seq<State>, events: seq<Event>, start: nat, others: seq<Others>) {
    |states| == |events| + 1 && start <= |events| && OthersOnly(states, events, start, |events|, others)
  }

  // ---- What an update comes to

  function RunEach(g: Graph, statements: seq<Statement>, supply: seq<Stamp>): Graph
    requires |statements| <= |supply|
    decreases |statements|
  {
    if statements == [] then g
    else
      var last := |statements| - 1;
      Execute(RunEach(g, statements[..last], supply), statements[last], supply[last])
  }

  /** The stamp of an object a load makes: of a class with a stamp field, and of a node that carries one. */
  function StampOf(g: Graph, u: Request): Option<Carried>
    requires u.id in g.nodes
  {
    if u.stamped && g.nodes[u.id].stamp.Some? then Some(Whole(g.nodes[u.id].stamp.value)) else None
  }

  function AttemptSave(g: Graph, u: Request): Statement
    requires u.id in g.nodes
  {
    SaveOf(u.id, g.nodes[u.id].props, StampOf(g, u), u.change, u.ignored)
  }

  /** One attempt of a node that is there: the store its save finds, the one it leaves, and the one then read. */
  datatype Tried = Tried(turnedAway: bool, atSave: Graph, went: bool, saved: Graph, atRead: Graph)

  function Try(g: Graph, supply: seq<Stamp>, u: Request, m: Others): Tried
    requires u.id in g.nodes && |supply| >= Spent(m)
  {
    var atSave := RunEach(g, m.between, supply);
    if m.turnedAway then Tried(true, atSave, false, atSave, atSave)
    else
      var save := AttemptSave(g, u);
      var saved := Execute(atSave, save, supply[|m.between|]);
      Tried(false, atSave, GoesOn(atSave, save), saved, RunEach(saved, m.after, supply[|m.between| + 1..]))
  }

  /**
   * The last attempt: whether the object carried a stamp and its save was turned away, and the store as it was loaded,
   * as the save found it and, refused, as the node was then looked for.
   */
  datatype Round = Round(attempt: nat, stamped: bool, turnedAway: bool, atLoad: Graph, atSave: Graph, atRead: Graph)

  /** What an update comes to, the store it leaves, and its last attempt. */
  datatype Ended = Ended(outcome: Outcome, graph: Graph, last: Round)

  /** There is something sent at each attempt, and enough to offer for all that is sent from this one on. */
  predicate Enough(supply: seq<Stamp>, attempts: int, others: seq<Others>, attempt: nat) {
    && |others| == (if attempts >= 1 then attempts else 1)
    && 1 <= attempt <= |others|
    && |supply| >= Total(others[attempt - 1..])
  }

  lemma EnoughGoesOn(supply: seq<Stamp>, attempts: int, others: seq<Others>, attempt: nat)
    requires Enough(supply, attempts, others, attempt)
    ensures var sent := Spent(others[attempt - 1]);
      && |supply| >= sent
      && (attempt < attempts ==> Enough(supply[sent..], attempts, others, attempt + 1))
  {
    assert others[attempt - 1..][0] == others[attempt - 1] && others[attempt - 1..][1..] == others[attempt..];
  }

  /** What an attempt of a node that is there comes to; none where there is to be another. */
  function Verdict(g: Graph, u: Request, attempt: nat, t: Tried): Option<Ended>
    requires u.id in g.nodes
  {
    var stamped := StampOf(g, u).Some?;
    var last := Round(attempt, stamped, t.turnedAway, g, t.atSave, t.atRead);
    var deleted := !t.turnedAway && u.id !in t.atRead.nodes;
    if t.went then Some(Ended(Saved(stamped), t.saved, last.(atRead := t.saved)))
    else if t.turnedAway && !stamped then Some(Ended(TurnedAway, t.atRead, last))
    else if attempt >= u.attempts then Some(Ended(Stale(deleted), t.atRead, last))
    else if deleted then Some(Ended(Missing, t.atRead, last))
    else None
  }

  /** The update from an attempt on. */
  function Updated(g: Graph, supply: seq<Stamp>, u: Request, others: seq<Others>, attempt: nat): Ended
    requires Enough(supply, u.attempts, others, attempt)
    decreases u.attempts - attempt
  {
    if u.id !in g.nodes then Ended(Missing, g, Round(attempt, false, false, g, g, g))
    else
      EnoughGoesOn(supply, u.attempts, others, attempt);
      var m := others[attempt - 1];
      var tried := Try(g, supply, u, m);
      var verdict := Verdict(g, u, attempt, tried);
      if verdict.Some? then verdict.value
      else Updated(tried.atRead, supply[Spent(m)..], u, others, attempt + 1)
  }

  predicate ComesTo(ended: Ended, g: Graph, supply: seq<Stamp>, u: Request, others: seq<Others>, attempt: nat) {
    Enough(supply, u.attempts, others, attempt) && ended == Updated(g, supply, u, others, attempt)
  }

  /** The last attempt loaded the node, and it was gone when it was saved, or, refused, when it was then looked for. */
  predicate Gone(r: Round, id: NodeId) {
    id in r.atLoad.nodes && id !in (if r.stamped then r.atRead.nodes else r.atSave.nodes)
  }

  /** `update` documents that it returns none when there is no such node, or it is deleted meanwhile. */
  predicate AsDocumented(e: Ended, id: NodeId) {
    e.outcome == Missing <==> id !in e.last.atLoad.nodes || Gone(e.last, id)
  }

  lemma MergeMakes(g: Graph, id: NodeId, change: Change, ignored: set<string>, before: Props, offered: Stamp)
    ensures var g' := Execute(g, SaveOf(id, before, None, change, ignored), offered);
      && id in g'.nodes
      && (id !in g.nodes ==> g'.nodes[id].props == Patched(map[], ChangeOf(before, change(before), ignored)))
  {
    var clause := SetProps(ChangeOf(before, change(before), ignored));
    assert Operations(SaveOf(id, before, None, change, ignored)) == [Merge(id, {}, [clause])];
    MergeOfOne(g, id, clause, offered);
  }

  lemma MergeOfOne(g: Graph, id: NodeId, clause: Clause, offered: Stamp)
    ensures var g' := RunAll(g, [Merge(id, {}, [clause])], offered);
      id in g'.nodes && (id !in g.nodes ==> g'.nodes[id].props == ClauseApplied(Node(map[], {}, None), clause).props)
  {
    var found := if id in g.nodes then g.nodes[id] else Node(map[], {}, None);
    assert [Merge(id, {}, [clause])][1..] == [] && [clause][1..] == [];
    assert Applied(ClauseApplied(found, clause), []) == ClauseApplied(found, clause);
    assert RunAll(Run(g, Merge(id, {}, [clause]), offered), [], offered) == Run(g, Merge(id, {}, [clause]), offered);
  }

  /** A save that goes on finds the node there, or makes it, and the object it was made from carried no stamp. */
  ghost predicate Makes(g: Graph, u: Request, t: Tried)
    requires u.id in g.nodes
  {
    && (t.went ==> u.id in t.saved.nodes && (StampOf(g, u).Some? ==> u.id in t.atSave.nodes))
    && (StampOf(g, u).None? ==> t.went || t.turnedAway)
    && (t.turnedAway ==> !t.went && t.atRead == t.atSave)
  }

  lemma TryMakes(g: Graph, supply: seq<Stamp>, u: Request, m: Others)
    requires u.id in g.nodes && |supply| >= Spent(m)
    ensures Makes(g, u, Try(g, supply, u, m))
  {
    if !m.turnedAway {
      var atSave, before, stamp := RunEach(g, m.between, supply), g.nodes[u.id].props, StampOf(g, u);
      if stamp.None? {
        MergeMakes(atSave, u.id, u.change, u.ignored, before, supply[|m.between|]);
      } else if GoesOn(atSave, AttemptSave(g, u)) {
        SaveIsOneWrite(atSave, u.id, before, stamp.value, u.change, u.ignored, supply[|m.between|]);
      }
    }
  }

  /** What an update comes to whose node is deleted while it is changed. */
  predicate EndsAsDeleted(e: Ended, u: Request) {
    var r := e.last;
    && (e.outcome == Missing <==> r.stamped && r.attempt < u.attempts)
    && (r.stamped && r.attempt >= u.attempts ==> e.outcome == Stale(!r.turnedAway))
    && (!r.stamped && r.turnedAway ==> e.outcome == TurnedAway)
    && (!r.stamped && !r.turnedAway ==> e.outcome == Saved(false) && u.id in e.graph.nodes)
  }

  /**
   * It is as documented if and only if the node is not deleted meanwhile, or the object carried a stamp and an attempt
   * was left.
   */
  predicate DocumentedUnless(e: Ended, u: Request) {
    && (AsDocumented(e, u.id) <==> !Gone(e.last, u.id) || (e.last.stamped && e.last.attempt < u.attempts))
    && (Gone(e.last, u.id) ==> EndsAsDeleted(e, u))
  }

  lemma VerdictIsDocumented(g: Graph, u: Request, attempt: nat, t: Tried)
    requires u.id in g.nodes && Makes(g, u, t) && Verdict(g, u, attempt, t).Some?
    ensures DocumentedUnless(Verdict(g, u, attempt, t).value, u)
  {
  }

  lemma {:induction false} DocumentedUnlessDeleted(
      g: Graph, supply: seq<Stamp>, u: Request, others: seq<Others>, attempt: nat)
    requires Enough(supply, u.attempts, others, attempt)
    ensures DocumentedUnless(Updated(g, supply, u, others, attempt), u)
    decreases u.attempts - attempt
  {
    if u.id in g.nodes {
      EnoughGoesOn(supply, u.attempts, others, attempt);
      var m := others[attempt - 1];
      var tried := Try(g, supply, u, m);
      TryMakes(g, supply, u, m);
      var verdict := Verdict(g, u, attempt, tried);
      if verdict.Some? {
        assert Updated(g, supply, u, others, attempt) == verdict.value;
        VerdictIsDocumented(g, u, attempt, tried);
      } else {
        DocumentedUnlessDeleted(tried.atRead, supply[Spent(m)..], u, others, attempt + 1);
      }
    }
  }

  // ---- What each attempt leads to

  /** Whether the save of the last attempt went on. */
  ghost predicate SaveWent(u: Request, r: Round) {
    u.id in r.atLoad.nodes && !r.turnedAway && GoesOn(r.atSave, AttemptSave(r.atLoad, u))
  }

  /** What an update comes to, told by its last attempt alone. */
  ghost predicate EndsAsAttempted(e: Ended, u: Request) {
    var r := e.last;
    var there := u.id in r.atLoad.nodes;
    && (e.outcome.Saved? <==> SaveWent(u, r))
    && (e.outcome.Stale? <==> there && r.stamped && !SaveWent(u, r) && r.attempt >= u.attempts)
    && (e.outcome.Stale? ==> (e.outcome.deleted <==> !r.turnedAway && u.id !in r.atRead.nodes))
    && (e.outcome.Missing? <==>
          || !there
          || (r.stamped && !SaveWent(u, r) && !r.turnedAway && u.id !in r.atRead.nodes && r.attempt < u.attempts))
    && (e.outcome.TurnedAway? <==> there && !r.stamped && r.turnedAway)
    && (there ==> (r.stamped <==> u.stamped && r.atLoad.nodes[u.id].stamp.Some?))
  }

  lemma VerdictEnds(g: Graph, supply: seq<Stamp>, u: Request, m: Others, attempt: nat)
    requires u.id in g.nodes && |supply| >= Spent(m)
    ensures var verdict := Verdict(g, u, attempt, Try(g, supply, u, m));
      verdict.Some? ==>
        && EndsAsAttempted(verdict.value, u) && verdict.value.last.attempt == attempt
        && verdict.value.last.turnedAway == m.turnedAway
  {
    TryMakes(g, supply, u, m);
  }

  /** The update as its attempts: what comes of it is told by the last, whose store the ones before have left. */
  lemma {:induction false} UpdateEndsAsAttempted(
      g: Graph, supply: seq<Stamp>, u: Request, others: seq<Others>, attempt: nat)
    requires Enough(supply, u.attempts, others, attempt)
    ensures var e := Updated(g, supply, u, others, attempt);
      && EndsAsAttempted(e, u) && attempt <= e.last.attempt <= |others|
      && (u.id in e.last.atLoad.nodes ==> e.last.turnedAway == others[e.last.attempt - 1].turnedAway)
    decreases u.attempts - attempt
  {
    if u.id in g.nodes {
      EnoughGoesOn(supply, u.attempts, others, attempt);
      var m := others[attempt - 1];
      var tried := Try(g, supply, u, m);
      VerdictEnds(g, supply, u, m, attempt);
      if Verdict(g, u, attempt, tried).None? {
        UpdateEndsAsAttempted(tried.atRead, supply[Spent(m)..], u, others, attempt + 1);
      }
    }
  }

  /** It gives up as stale only once every attempt is made. */
  lemma StaleOnlyAtTheEnd(g: Graph, supply: seq<Stamp>, u: Request, others: seq<Others>)
    requires Enough(supply, u.attempts, others, 1)
    ensures var e := Updated(g, supply, u, others, 1);
      e.outcome.Stale? ==> e.last.attempt >= u.attempts && e.last.attempt == |others|
  {
    UpdateEndsAsAttempted(g, supply, u, others, 1);
  }

  /** Nobody writes between the load and the save, and the engine takes it. */
  predicate IsQuiet(m: Others) {
    m.between == [] && !m.turnedAway
  }

  lemma QuietGoesOn(g: Graph, supply: seq<Stamp>, u: Request, m: Others)
    requires u.id in g.nodes && |supply| >= Spent(m) && IsQuiet(m)
    ensures Try(g, supply, u, m).went
  {
    assert RunEach(g, m.between, supply) == g;
    assert GoesOn(g, AttemptSave(g, u));
  }

  /** An update that comes to an attempt that meets nothing ends with it: saved, or where there is no such node. */
  lemma {:induction false} QuietAttemptSaves(
      g: Graph, supply: seq<Stamp>, u: Request, others: seq<Others>, attempt: nat, quiet: nat)
    requires Enough(supply, u.attempts, others, attempt)
    requires attempt <= quiet <= |others| && IsQuiet(others[quiet - 1])
    ensures var e := Updated(g, supply, u, others, attempt);
      && e.last.attempt <= quiet
      && (e.last.attempt == quiet ==>
            if u.id in e.last.atLoad.nodes then e.outcome == Saved(e.last.stamped) else e.outcome == Missing)
    decreases u.attempts - attempt
  {
    if u.id in g.nodes {
      EnoughGoesOn(supply, u.attempts, others, attempt);
      var m := others[attempt - 1];
      var tried := Try(g, supply, u, m);
      if attempt == quiet {
        QuietGoesOn(g, supply, u, m);
      } else if Verdict(g, u, attempt, tried).None? {
        QuietAttemptSaves(tried.atRead, supply[Spent(m)..], u, others, attempt + 1, quiet);
      }
    }
  }

  /**
   * And it comes to the next attempt whenever a stamped object's save is refused, or turned away, while one is left and
   * the node is not found to be deleted.
   */
  lemma RefusedIsTriedAgain(g: Graph, supply: seq<Stamp>, u: Request, others: seq<Others>, attempt: nat)
    requires Enough(supply, u.attempts, others, attempt) && attempt < u.attempts && u.id in g.nodes
    requires StampOf(g, u).Some?
    ensures Spent(others[attempt - 1]) <= |supply|
    ensures Enough(supply[Spent(others[attempt - 1])..], u.attempts, others, attempt + 1)
    ensures var m := others[attempt - 1];
      var atSave := RunEach(g, m.between, supply);
      (m.turnedAway ==>
         Updated(g, supply, u, others, attempt) == Updated(atSave, supply[Spent(m)..], u, others, attempt + 1))
    ensures var m := others[attempt - 1];
      var atSave := RunEach(g, m.between, supply);
      !m.turnedAway && !GoesOn(atSave, AttemptSave(g, u)) ==>
        var atRead := RunEach(atSave, m.after, supply[|m.between| + 1..]);
        u.id in atRead.nodes ==>
          Updated(g, supply, u, others, attempt) == Updated(atRead, supply[Spent(m)..], u, others, attempt + 1)
  {
    EnoughGoesOn(supply, u.attempts, others, attempt);
  }

  /** But for a node then found to be deleted the update is given up at once, and none is returned. */
  lemma DeletedIsGivenUp(g: Graph, supply: seq<Stamp>, u: Request, others: seq<Others>, attempt: nat)
    requires Enough(supply, u.attempts, others, attempt) && attempt < u.attempts && u.id in g.nodes
    requires StampOf(g, u).Some? && !others[attempt - 1].turnedAway && Spent(others[attempt - 1]) <= |supply|
    requires var m := others[attempt - 1];
      var atSave := RunEach(g, m.between, supply);
      && !GoesOn(atSave, AttemptSave(g, u))
      && u.id !in RunEach(atSave, m.after, supply[|m.between| + 1..]).nodes
    ensures var e := Updated(g, supply, u, others, attempt); e.outcome == Missing && e.last.attempt == attempt
  {
    EnoughGoesOn(supply, u.attempts, others, attempt);
  }

  /** Refused once, the node still there, and then met by nothing: the second attempt saves. */
  lemma RefusedOnceIsSaved(g: Graph, supply: seq<Stamp>, u: Request, others: seq<Others>)
    requires Enough(supply, u.attempts, others, 1) && u.attempts >= 2 && u.id in g.nodes && StampOf(g, u).Some?
    requires !others[0].turnedAway && IsQuiet(others[1]) && Spent(others[0]) <= |supply|
    requires var atSave := RunEach(g, others[0].between, supply);
      && !GoesOn(atSave, AttemptSave(g, u))
      && u.id in RunEach(atSave, others[0].after, supply[|others[0].between| + 1..]).nodes
    ensures var e := Updated(g, supply, u, others, 1); e.outcome.Saved? && e.last.attempt == 2
  {
    RefusedIsTriedAgain(g, supply, u, others, 1);
    var atSave, rest := RunEach(g, others[0].between, supply), supply[Spent(others[0])..];
    var atRead := RunEach(atSave, others[0].after, supply[|others[0].between| + 1..]);
    QuietAttemptSaves(atRead, rest, u, others, 2, 2);
    UpdateEndsAsAttempted(atRead, rest, u, others, 2);
    UpdateLoadsFirst(atRead, rest, u, others, 2);
  }

  /** The first attempt loads the store as it is. */
  lemma UpdateLoadsFirst(g: Graph, supply: seq<Stamp>, u: Request, others: seq<Others>, attempt: nat)
    requires Enough(supply, u.attempts, others, attempt)
    ensures var e := Updated(g, supply, u, others, attempt); e.last.attempt == attempt ==> e.last.atLoad == g
  {
    if u.id in g.nodes {
      EnoughGoesOn(supply, u.attempts, others, attempt);
      var m := others[attempt - 1];
      var tried := Try(g, supply, u, m);
      if Verdict(g, u, attempt, tried).None? {
        UpdateEndsAsAttempted(tried.atRead, supply[Spent(m)..], u, others, attempt + 1);
      }
    }
  }

  // ---- Where it is not as documented

  /** Another writer deletes the node between the load and the save, which may be turned away as well. */
  function DeletedMeanwhile(id: NodeId, turnedAway: bool): Others {
    Others([Deleting({id})], turnedAway, [])
  }

  lemma OneDeleteIsEnough(supply: seq<Stamp>, m: Others)
    requires |supply| >= Spent(m)
    ensures Enough(supply, 1, [m], 1)
  {
    assert [m][0..] == [m] && [m][1..] == [];
  }

  lemma OneDelete(g: Graph, id: NodeId, supply: seq<Stamp>)
    requires |supply| >= 1
    ensures RunEach(g, [Deleting({id})], supply) == Detached(g, {id})
  {
    assert [Deleting({id})][..0] == [];
    assert Operations(Deleting({id})) == [Detach({id})] && [Detach({id})][1..] == [];
    assert RunAll(Detached(g, {id}), [], supply[0]) == Detached(g, {id});
    assert RunEach(g, [], supply) == g;
  }

  /**
   * Deleted by another writer at the last attempt: StaleObjectException is thrown, where none is documented, and, where
   * the save was turned away, not marked deleted.
   */
  lemma DeletedAtTheLastAttempt(g: Graph, supply: seq<Stamp>, u: Request, turnedAway: bool)
    requires u.id in g.nodes && g.nodes[u.id].stamp.Some? && u.stamped && u.attempts == 1 && |supply| >= 2
    ensures Enough(supply, 1, [DeletedMeanwhile(u.id, turnedAway)], 1)
    ensures var e := Updated(g, supply, u, [DeletedMeanwhile(u.id, turnedAway)], 1);
      e.outcome == Stale(!turnedAway) && !AsDocumented(e, u.id)
  {
    OneDeleteIsEnough(supply, DeletedMeanwhile(u.id, turnedAway));
    OneDelete(g, u.id, supply);
    assert !GoesOn(Detached(g, {u.id}), AttemptSave(g, u));
    assert RunEach(Detached(g, {u.id}), [], supply[2..]) == Detached(g, {u.id});
  }

  /** A counter, and a name beside it. */
  function NamedCounter(n: int): Props {
    Counter(n)["name" := Text("")]
  }

  lemma NamedCounterIsCounted()
    ensures Patched(map[], ChangeOf(NamedCounter(0), CountUp(NamedCounter(0)), {})) == Counter(1)
  {
    assert ChangeOf(NamedCounter(0), CountUp(NamedCounter(0)), {}) == map["n" := Some(Number(1))];
  }

  /** Deleted while an object without a stamp is changed: the node is made again, of what was changed alone. */
  lemma UnstampedIsMadeAgain(g: Graph, supply: seq<Stamp>, u: Request)
    requires u.id in g.nodes && g.nodes[u.id].props == NamedCounter(0) && StampOf(g, u).None? && |supply| >= 2
    requires u.change == CountUp && u.ignored == {} && u.attempts == 1
    ensures Enough(supply, 1, [DeletedMeanwhile(u.id, false)], 1)
    ensures var e := Updated(g, supply, u, [DeletedMeanwhile(u.id, false)], 1);
      && e.outcome == Saved(false) && !AsDocumented(e, u.id)
      && u.id in e.graph.nodes && e.graph.nodes[u.id].props == Counter(1)
  {
    var m := DeletedMeanwhile(u.id, false);
    OneDeleteIsEnough(supply, m);
    OneDelete(g, u.id, supply);
    TryMakes(g, supply, u, m);
    MergeMakes(Detached(g, {u.id}), u.id, u.change, {}, NamedCounter(0), supply[1]);
    NamedCounterIsCounted();
  }

  /** What an attempt of a node that is there leaves, before any look for the node. */
  predicate AttemptLeaves(
      g: Graph, supply: seq<Stamp>, u: Request, m: Others, result: Attempted, g': Graph, rest: seq<Stamp>)
    requires u.id in g.nodes && |supply| >= Spent(m)
  {
    var atSave, checked := RunEach(g, m.between, supply), StampOf(g, u).Some?;
    if m.turnedAway then result == Contended(checked) && g' == atSave && rest == supply[|m.between|..]
    else
      && result == (if GoesOn(atSave, AttemptSave(g, u)) then Went(checked) else Refused)
      && g' == Execute(atSave, AttemptSave(g, u), supply[|m.between|]) && rest == supply[|m.between| + 1..]
  }

  class Store {
    var graph: Graph
    var supply: seq<Stamp>
    ghost var states: seq<State>
    ghost var events: seq<Event>

    /** The history is a run that ends in the store as it is. */
    ghost predicate Valid()
      reads this
    {
      && IsRun(states, events)
      && states[|events|].graph == graph
      && Unseen(states[|events|].used, supply)
    }

    constructor (supply: seq<Stamp>)
      requires Unseen({}, supply)
      ensures Valid() && graph == Graph(map[], map[], 0) && this.supply == supply && events == []
    {
      this.graph := Graph(map[], map[], 0);
      this.supply := supply;
      this.states := [State(Graph(map[], map[], 0), {})];
      this.events := [];
    }

    /** Runs one statement. Returns whether it went on. */
    method Send(s: Statement) returns (went: bool)
      requires Valid() && supply != []
      modifies this
      ensures Valid()
      ensures went == GoesOn(old(graph), s)
      ensures graph == Execute(old(graph), s, old(supply[0]))
      ensures supply == old(supply[1..])
      ensures events == old(events) + [Event(s, old(supply[0]))]
      ensures states == old(states) + [Next(old(states[|events|]), Event(s, old(supply[0])))]
    {
      went := GoesOn(graph, s);
      ghost var event := Event(s, supply[0]);
      ghost var next := Next(states[|events|], event);
      graph := Execute(graph, s, supply[0]);
      supply := supply[1..];
      states := states + [next];
      events := events + [event];
    }

    /** What other writers send meanwhile. */
    method SendAll(statements: seq<Statement>, ghost start: nat, ghost others: seq<Others>)
      requires Valid() && |statements| <= |supply|
      requires start <= |events| && OthersOnly(states, events, start, |events|, others)
      requires forall s <- statements :: SentBy(others, s)
      modifies this
      ensures Valid() && |supply| == |old(supply)| - |statements|
      ensures old(events) <= events && old(states) <= states
      ensures OthersOnly(states, events, start, |events|, others)
      ensures graph == RunEach(old(graph), statements, old(supply)) && supply == old(supply)[|statements|..]
    {
      for i := 0 to |statements|
        invariant Valid() && |supply| == |old(supply)| - i
        invariant old(events) <= events && old(states) <= states
        invariant OthersOnly(states, events, start, |events|, others)
        invariant graph == RunEach(old(graph), statements[..i], old(supply)) && supply == old(supply)[i..]
      {
        assert statements[..i + 1][..i] == statements[..i];
        OneMore(states, events, start, others, Next(states[|events|], Event(statements[i], supply[0])),
                Event(statements[i], supply[0]));
        var _ := Send(statements[i]);
      }
      assert statements[..|statements|] == statements;
    }

    /** One attempt: loads the node, applies the change and saves what it altered, unless the save is turned away. */
    method Attempt(u: Request, m: Others, ghost start: nat, ghost others: seq<Others>) returns (result: Attempted)
      requires Valid() && |supply| >= Spent(m) && m in others
      requires start <= |events| && OthersOnly(states, events, start, |events|, others)
      modifies this
      ensures Valid() && old(events) <= events && old(states) <= states
      ensures result.NotThere? <==> u.id !in old(graph).nodes
      ensures if result.NotThere? then graph == old(graph) && supply == old(supply)
        else AttemptLeaves(old(graph), old(supply), u, m, result, graph, supply)
      ensures !result.Went? ==> OthersOnly(states, events, start, |events|, others)
      ensures result.Went? ==> SavedLast(states, events, start, others, graph, u, result.checked)
    {
      if u.id !in graph.nodes {
        return NotThere;
      }
      ghost var g, loadedAt := graph, |events|;
      var checked, save := StampOf(graph, u).Some?, AttemptSave(graph, u);
      SendAll(m.between, start, others);
      if m.turnedAway {
        return Contended(checked);
      }
      var went := SendSave(u, save, g, loadedAt, start, others);
      return if went then Went(checked) else Refused;
    }

    /** Sends the save of what was loaded, of an earlier moment. */
    method SendSave(
        u: Request, save: Statement, ghost g: Graph, ghost loadedAt: nat, ghost start: nat, ghost others: seq<Others>)
        returns (went: bool)
      requires Valid() && supply != []
      requires loadedAt <= |events| && states[loadedAt].graph == g && u.id in g.nodes && save == AttemptSave(g, u)
      requires start <= |events| && OthersOnly(states, events, start, |events|, others)
      modifies this
      ensures Valid() && old(events) <= events && old(states) <= states
      ensures went == GoesOn(old(graph), save) && graph == Execute(old(graph), save, old(supply)[0])
      ensures supply == old(supply)[1..]
      ensures if went then SavedLast(states, events, start, others, graph, u, StampOf(g, u).Some?)
        else OthersOnly(states, events, start, |events|, others)
    {
      ghost var event := Event(save, supply[0]);
      OneMore(states, events, start, others, Next(states[|events|], event), event);
      went := Send(save);
      if went && StampOf(g, u).Some? {
        SavedIsAtomic(states, events, loadedAt,
          Pending(u.id, g.nodes[u.id].props, StampOf(g, u).value, u.change, u.ignored));
      }
    }

    /** One turn of the loop: an attempt, and, refused, the look for the node. None says to go on. */
    method Turn(u: Request, others: seq<Others>, attempt: nat, ghost start: nat, ghost ended: Ended)
        returns (outcome: Option<Outcome>)
      requires Valid() && ComesTo(ended, graph, supply, u, others, attempt)
      requires NothingDone(states, events, start, others)
      modifies this
      ensures Valid() && GoneOn(old(states), states, old(events), events)
      ensures outcome.Some? ==> outcome.value == ended.outcome && graph == ended.graph
      ensures outcome.None? ==> attempt < u.attempts && ComesTo(ended, graph, supply, u, others, attempt + 1)
      ensures if outcome.Some? && outcome.value.Saved?
        then SavedLast(states, events, start, others, graph, u, outcome.value.checked)
        else NothingDone(states, events, start, others)
    {
      EnoughGoesOn(supply, u.attempts, others, attempt);
      var m := others[attempt - 1];
      ghost var g, offers := graph, supply;
      var result := Attempt(u, m, start, others);
      var deleted := false;
      match result {
        case NotThere => return Some(Missing);
        case Went(checked) => return Some(Saved(checked));
        case Contended(checked) =>
          if !checked {
            return Some(TurnedAway);
          }
        case Refused =>
          SendAll(m.after, start, others);
          deleted := u.id !in graph.nodes;
      }
      ghost var tried := Try(g, offers, u, m);
      assert graph == tried.atRead && !tried.went && supply == offers[Spent(m)..];
      if attempt >= u.attempts {
        return Some(Stale(deleted));
      }
      return if deleted then Some(Missing) else None;
    }

    /**
     * Loads the node, applies the change and saves what it altered, as often as it may. `others` is what meets each
     * attempt.
     */
    method Update(u: Request, others: seq<Others>) returns (outcome: Outcome)
      requires Valid() && Enough(supply, u.attempts, others, 1)
      modifies this
      ensures Valid() && GoneOn(old(states), states, old(events), events)
      ensures exists last :: ComesTo(Ended(outcome, graph, last), old(graph), old(supply), u, others, 1)
      ensures if outcome.Saved?
        then SavedLast(states, events, |old(events)|, others, graph, u, outcome.checked)
        else NothingDone(states, events, |old(events)|, others)
    {
      ghost var start, ended := |events|, Updated(graph, supply, u, others, 1);
      var attempt := 1;
      while true
        invariant Valid() && ComesTo(ended, graph, supply, u, others, attempt)
        invariant GoneOn(old(states), states, old(events), events)
        invariant NothingDone(states, events, start, others)
        decreases u.attempts - attempt
      {
        var done := Turn(u, others, attempt, start, ended);
        if done.Some? {
          return done.value;
        }
        attempt := attempt + 1;
      }
    }
  }
}
