/**
 * `update` where a load takes no snapshot (src/manager/StatelessGraphObjectManager.ts:511-540, 887-927): the change is
 * given the object a load made of what it read at several moments, and the save checks the root against that object.
 */
module TornUpdates {
  import opened Wrappers
  import opened Stamps
  import opened Graphs
  import opened Statements
  import opened TokenRuns
  import opened Updates
  import opened Mapping
  import opened RoundTrip
  import opened TornLoads

  // ---- The change of an object

  /** The root a change is given: the fields the change goes by, each bag's entries and the labels. */
  datatype Seen = Seen(fields: map<string, FieldValue>, bags: map<Bag, map<string, Value>>, labels: set<string>)

  /** The root as the change leaves it, a field it took away being null, and what its labels field then holds. */
  datatype Edited = Edited(root: Object, labels: seq<string>)

  type Edit = Seen -> Edited

  function SeenOf(m: Model, json: Json, lm: LabelsModel, raw: Props, labels: set<string>, fields: set<string>): Seen {
    Seen(FieldsSeen(m, json, raw, fields), BagsSeen(m, raw), ReadLabels(lm, labels))
  }

  function FieldsSeen(m: Model, json: Json, raw: Props, fields: set<string>): map<string, FieldValue> {
    map f | f in fields :: Loaded(m, json, raw, f)
  }

  function BagsSeen(m: Model, raw: Props): map<Bag, map<string, Value>> {
    map b | b in m.bags :: LoadedBag(m, raw, b)
  }

  /** The change reads and writes these fields, each of which the save compares. */
  ghost predicate GoesBy(m: Model, torn: Torn, edit: Edit, fields: set<string>) {
    && fields <= Compared(m, torn)
    && forall seen :: forall f <- edit(seen).root.fields :: f.0 in fields
  }

  // ---- What its save writes

  function ChangedFields(seen: Seen, fields: seq<(string, FieldValue)>): seq<(string, FieldValue)> {
    if fields == [] then []
    else
      var (f, v) := fields[0];
      (if f in seen.fields && seen.fields[f] == v then [] else [fields[0]]) + ChangedFields(seen, fields[1..])
  }

  predicate SameEntries(held: map<string, Value>, entries: seq<(string, Option<Value>)>) {
    (forall e <- entries :: e.1.Some?) && GivenOf(entries) == held
  }

  function ChangedBags(bags: seq<Bag>, seen: Seen, o: Object): seq<Bag> {
    if bags == [] then []
    else
      (if bags[0] in seen.bags && SameEntries(seen.bags[bags[0]], EntriesOf(o, bags[0])) then [] else [bags[0]])
      + ChangedBags(bags[1..], seen, o)
  }

  function Added(labels: seq<string>): seq<Clause> {
    seq(|labels|, i requires 0 <= i < |labels| => AddLabel(labels[i]))
  }

  /** The labels the field may take away and no longer holds, but for the class's own. */
  function TakenAway(lm: LabelsModel, owned: seq<string>, labels: seq<string>): seq<Clause> {
    if owned == [] then []
    else
      (if owned[0] in labels || (lm.Open? && owned[0] in lm.own) then [] else [RemoveLabel(owned[0])])
      + TakenAway(lm, owned[1..], labels)
  }

  /**
   * The write of what the change altered, nulls cleared. `held` is the keys the node was read to hold, and `owned` the
   * labels the field may take away.
   */
  function Clauses(
      m: Model, json: Json, lm: LabelsModel, seen: Seen, edited: Edited, held: set<string>,
      owned: seq<string>): seq<Clause> {
    [SetProps(FieldProps(m, json, ChangedFields(seen, edited.root.fields), Clear)),
     SetProps(BagProps(m, edited.root, ChangedBags(m.bags, seen, edited.root), held, Clear))]
    + (if (set l | l in edited.labels) == seen.labels then []
       else Added(edited.labels) + TakenAway(lm, owned, edited.labels))
  }

  function CheckedSave(id: NodeId, clauses: seq<Clause>, stamp: Carried, asLoaded: Node -> bool): Statement {
    Save(id, {}, clauses, Checked(stamp), asLoaded, [], NoRows, [])
  }

  /** The save of what was loaded, changed: `held` is what the node was read to hold once it was loaded. */
  function UpdateOf(
      m: Model, json: Json, lm: LabelsModel, id: NodeId, torn: Torn, stamp: Carried, edit: Edit, fields: set<string>,
      held: set<string>, owned: seq<string>): Statement {
    var seen := SeenOf(m, json, lm, torn.raw, torn.labels, fields);
    CheckedSave(id, Clauses(m, json, lm, seen, edit(seen), held, owned), stamp,
                (n: Node) => RootAsLoaded(m, json, lm, n, torn))
  }

  /** The change as one step: the node loaded, changed and written with nothing between. */
  function EditedNode(
      m: Model, json: Json, lm: LabelsModel, n: Node, edit: Edit, fields: set<string>, owned: seq<string>): Node {
    var seen := SeenOf(m, json, lm, n.props, n.labels, fields);
    Applied(n, Clauses(m, json, lm, seen, edit(seen), n.props.Keys, owned))
  }

  function EditedIn(
      g: Graph, id: NodeId, m: Model, json: Json, lm: LabelsModel, edit: Edit, fields: set<string>,
      owned: seq<string>): Graph
    requires id in g.nodes
  {
    g.(nodes := g.nodes[id := EditedNode(m, json, lm, g.nodes[id], edit, fields, owned)])
  }

  lemma CheckedSaveIsOneWrite(
      g: Graph, id: NodeId, clauses: seq<Clause>, stamp: Carried, asLoaded: Node -> bool, offered: Stamp)
    requires GoesOn(g, CheckedSave(id, clauses, stamp, asLoaded))
    ensures id in g.nodes
    ensures Execute(g, CheckedSave(id, clauses, stamp, asLoaded), offered)
         == g.(nodes := g.nodes[id := Written(g.nodes[id], clauses, offered)])
  {
    var ops := Operations(CheckedSave(id, clauses, stamp, asLoaded));
    assert ops == [Write(id, clauses)] && ops[1..] == [];
    assert RunAll(Run(g, ops[0], offered), ops[1..], offered) == Run(g, ops[0], offered);
  }

  // ---- Reads that take a while

  /** What is read of a property is what the node held at some moment of the read. */
  ghost predicate ReadAt(g: Graph, id: NodeId, raw: Props, name: string) {
    if id in g.nodes && name in g.nodes[id].props then name in raw && raw[name] == g.nodes[id].props[name]
    else name !in raw
  }

  ghost predicate ReadOnce(states: seq<State>, from: nat, to: nat, id: NodeId, raw: Props, name: string)
    requires to < |states|
  {
    exists i | from <= i <= to :: ReadAt(states[i].graph, id, raw, name)
  }

  ghost predicate ReadBetween(states: seq<State>, from: nat, to: nat, id: NodeId, raw: Props)
    requires to < |states|
  {
    forall name :: ReadOnce(states, from, to, id, raw, name)
  }

  /** A load reads the properties, the labels and the stamp, each as some moment of it left them. */
  ghost predicate LoadedBetween(states: seq<State>, from: nat, to: nat, id: NodeId, torn: Torn, token: Token)
    requires to < |states|
  {
    && ReadBetween(states, from, to, id, torn.raw)
    && (exists i | from <= i <= to :: id in states[i].graph.nodes && states[i].graph.nodes[id].labels == torn.labels)
    && exists i | from <= i <= to :: HasData(states[i].graph, id, token)
  }

  /** A node that kept its data token kept its properties, and a read meanwhile, however long, read them. */
  lemma ReadIsExact(
      states: seq<State>, events: seq<Event>, stampAt: nat, from: nat, to: nat, id: NodeId, token: Token, raw: Props)
    requires IsRun(states, events) && stampAt <= from <= to < |states|
    requires HasData(states[stampAt].graph, id, token) && HasData(states[to].graph, id, token)
    requires ReadBetween(states, from, to, id, raw)
    ensures raw == states[to].graph.nodes[id].props
  {
    DataTokenDeterminesProperties(states, events, stampAt, to, id, token);
    var props := states[to].graph.nodes[id].props;
    forall name ensures SameAt(raw, props, name) {
      assert ReadOnce(states, from, to, id, raw, name);
      var i :| from <= i <= to && ReadAt(states[i].graph, id, raw, name);
      DataTokenDeterminesProperties(states, events, i, to, id, token);
    }
    SameEverywhere(raw, props);
  }

  lemma FieldsSeenAlike(m: Model, json: Json, a: Props, b: Props, fields: set<string>)
    requires forall f <- fields :: Loaded(m, json, a, f) == Loaded(m, json, b, f)
    ensures FieldsSeen(m, json, a, fields) == FieldsSeen(m, json, b, fields)
  {
    var x, y := FieldsSeen(m, json, a, fields), FieldsSeen(m, json, b, fields);
    assert x.Keys == fields && y.Keys == fields;
    assert forall f <- fields :: x[f] == y[f];
  }

  lemma BagsSeenAlike(m: Model, a: Props, b: Props)
    requires forall bag <- m.bags :: LoadedBag(m, a, bag) == LoadedBag(m, b, bag)
    ensures BagsSeen(m, a) == BagsSeen(m, b)
  {
    var x, y := BagsSeen(m, a), BagsSeen(m, b);
    assert forall bag :: (bag in x <==> bag in m.bags) && (bag in y <==> bag in m.bags);
    assert forall bag <- m.bags :: x[bag] == y[bag];
  }

  /** A node that passes is one a load would now make the same of as the change was given. */
  lemma PassingIsSeenAlike(m: Model, json: Json, lm: LabelsModel, n: Node, torn: Torn, fields: set<string>)
    requires CanCompare(m, json, torn) && RootAsLoaded(m, json, lm, n, torn) && fields <= Compared(m, torn)
    ensures SeenOf(m, json, lm, n.props, n.labels, fields) == SeenOf(m, json, lm, torn.raw, torn.labels, fields)
  {
    PassingIsLoadedAlike(m, json, lm, n, torn);
    forall f <- fields ensures Loaded(m, json, n.props, f) == Loaded(m, json, torn.raw, f) {
      assert f in Compared(m, torn);
    }
    FieldsSeenAlike(m, json, n.props, torn.raw, fields);
    BagsSeenAlike(m, n.props, torn.raw);
  }

  /**
   * However its load was torn, an update whose save goes on is its change in one step on what the node then holds, for
   * every change that goes by fields the class initializes or renames, or that the load found, by bags and by labels.
   */
  lemma TornUpdateIsAtomic(
      states: seq<State>, events: seq<Event>, m: Model, json: Json, lm: LabelsModel, id: NodeId, torn: Torn,
      stamp: Carried, edit: Edit, fields: set<string>, held: Props, owned: seq<string>, from: nat, to: nat)
    requires IsRun(states, events) && from <= to < |events|
    requires LoadedBetween(states, from, to, id, torn, stamp.data) && ReadBetween(states, to, |events| - 1, id, held)
    requires CanCompare(m, json, torn) && GoesBy(m, torn, edit, fields)
    requires events[|events| - 1].statement == UpdateOf(m, json, lm, id, torn, stamp, edit, fields, held.Keys, owned)
    requires GoesOn(states[|events| - 1].graph, events[|events| - 1].statement)
    ensures id in states[|events| - 1].graph.nodes
    ensures Content(states[|events|].graph)
         == EditedIn(Content(states[|events| - 1].graph), id, m, json, lm, edit, fields, owned)
  {
    var last := |events| - 1;
    HeldIsExact(states, events, id, torn, stamp, held, from, to);
    TornSaveIsAtomic(
      states[last].graph, events[last].statement, states[|events|].graph, m, json, lm, id, torn, stamp, edit, fields,
      held.Keys, owned, events[last].offered);
  }

  /** What is held is read after the stamp and before the save: the save goes on only where the node kept its token. */
  lemma HeldIsExact(
      states: seq<State>, events: seq<Event>, id: NodeId, torn: Torn, stamp: Carried, held: Props, from: nat, to: nat)
    requires IsRun(states, events) && from <= to < |events|
    requires LoadedBetween(states, from, to, id, torn, stamp.data) && ReadBetween(states, to, |events| - 1, id, held)
    requires events[|events| - 1].statement.Save? && events[|events| - 1].statement.root == id
    requires events[|events| - 1].statement.mode == Checked(stamp)
    requires GoesOn(states[|events| - 1].graph, events[|events| - 1].statement)
    ensures id in states[|events| - 1].graph.nodes && held == states[|events| - 1].graph.nodes[id].props
    ensures states[|events|].graph
      == Execute(states[|events| - 1].graph, events[|events| - 1].statement, events[|events| - 1].offered)
  {
    var last := |events| - 1;
    var i :| from <= i <= to && HasData(states[i].graph, id, stamp.data);
    ReadIsExact(states, events, i, to, last, id, stamp.data, held);
    assert states[last + 1] == Next(states[last], events[last]);
  }

  lemma TornSaveIsAtomic(
      g: Graph, s: Statement, g': Graph, m: Model, json: Json, lm: LabelsModel, id: NodeId, torn: Torn, stamp: Carried,
      edit: Edit, fields: set<string>, held: set<string>, owned: seq<string>, offered: Stamp)
    requires CanCompare(m, json, torn) && GoesBy(m, torn, edit, fields)
    requires id in g.nodes && held == g.nodes[id].props.Keys
    requires s == UpdateOf(m, json, lm, id, torn, stamp, edit, fields, held, owned) && GoesOn(g, s)
    requires g' == Execute(g, s, offered)
    ensures Content(g') == EditedIn(Content(g), id, m, json, lm, edit, fields, owned)
  {
    var seen := SeenOf(m, json, lm, torn.raw, torn.labels, fields);
    var clauses := Clauses(m, json, lm, seen, edit(seen), held, owned);
    PassingIsSeenAlike(m, json, lm, g.nodes[id], torn, fields);
    assert EditedNode(m, json, lm, Content(g).nodes[id], edit, fields, owned) == Applied(Content(g).nodes[id], clauses);
    CheckedSaveIsOneWrite(g, id, clauses, stamp, (n: Node) => RootAsLoaded(m, json, lm, n, torn), offered);
    WrittenIsApplied(g, id, clauses, offered);
  }

  lemma WrittenIsApplied(g: Graph, id: NodeId, clauses: seq<Clause>, offered: Stamp)
    requires id in g.nodes
    ensures var g' := g.(nodes := g.nodes[id := Written(g.nodes[id], clauses, offered)]);
      Content(g') == Content(g).(nodes := Content(g).nodes[id := Applied(Content(g).nodes[id], clauses)])
  {
    AppliedIgnoresStamp(g.nodes[id], clauses);
  }

  lemma {:induction false} AppliedIgnoresStamp(n: Node, clauses: seq<Clause>)
    ensures Applied(n.(stamp := None), clauses) == Applied(n, clauses).(stamp := None)
    decreases |clauses|
  {
    if clauses != [] {
      assert ClauseApplied(n.(stamp := None), clauses[0]) == ClauseApplied(n, clauses[0]).(stamp := None);
      AppliedIgnoresStamp(ClauseApplied(n, clauses[0]), clauses[1..]);
    }
  }

  // ---- Where the stamp alone is not enough

  /** A class with a counter it initializes. */
  const COUNTED := Model("id", None, [], {}, {}, {}, map[], {}, {}, map["n" := Plain(Number(0))], [], None)

  /** Counts one more, from 0 where the node holds no count. */
  function CountOn(seen: Seen): Edited {
    if "n" in seen.fields && seen.fields["n"].Plain? && seen.fields["n"].value.Number?
    then Edited(Object([("n", Plain(Number(seen.fields["n"].value.n + 1)))], map[]), [])
    else Edited(Object([], map[]), [])
  }

  /** And without labels of its own. */
  const UNLABELLED := LabelsModel.Closed({})

  /** What the save of a count that was loaded writes. */
  function CountClauses(json: Json, raw: Props, labels: set<string>, held: set<string>): seq<Clause> {
    var seen := SeenOf(COUNTED, json, UNLABELLED, raw, labels, {"n"});
    Clauses(COUNTED, json, UNLABELLED, seen, CountOn(seen), held, [])
  }

  lemma CountIsLoaded(json: Json, n: int)
    ensures LoadedField(COUNTED, "n") == Some("n")
    ensures Loaded(COUNTED, json, Counter(n), "n") == Plain(Number(n))
  {
    assert "n"[0] != RESERVED_PREFIX[0] && "n" !in FORBIDDEN_KEYS by {
      assert |"n"| != |"__proto__"| && |"n"| != |"constructor"| && |"n"| != |"prototype"|;
    }
  }

  /** One more is written, on whatever the node then holds. */
  lemma CountIsWritten(json: Json, n: int, node: Node, m: int, held: set<string>)
    requires node.props == Counter(m)
    ensures Applied(node, CountClauses(json, Counter(n), node.labels, held)).props == Counter(n + 1)
  {
    CountIsLoaded(json, n);
    var seen := SeenOf(COUNTED, json, UNLABELLED, Counter(n), node.labels, {"n"});
    var fields := [("n", Plain(Number(n + 1)))];
    assert ChangedFields(seen, fields) == fields;
    assert FieldProps(COUNTED, json, fields, Clear) == map["n" := Some(Number(n + 1))];
    var clauses := CountClauses(json, Counter(n), node.labels, held);
    assert clauses == [SetProps(map["n" := Some(Number(n + 1))]), SetProps(map[])];
    TwoApplied(node, clauses[0], clauses[1]);
    assert Patched(Counter(m), map["n" := Some(Number(n + 1))]) == Counter(n + 1);
    assert Patched(Counter(n + 1), map[]) == Counter(n + 1);
  }

  lemma TwoApplied(n: Node, a: Clause, b: Clause)
    ensures Applied(n, [a, b]) == ClauseApplied(ClauseApplied(n, a), b)
  {
    assert [a, b][1..] == [b] && [b][1..] == [];
    assert Applied(ClauseApplied(ClauseApplied(n, a), b), []) == ClauseApplied(ClauseApplied(n, a), b);
  }

  /** Another writer's patch of the count to 1. */
  function PatchToOne(id: NodeId): Statement {
    PatchAll([(id, map["n" := Some(Number(1))], true)])
  }

  lemma PatchedToOne(g: Graph, id: NodeId, offered: Stamp)
    requires id in g.nodes && g.nodes[id].props == Counter(0) && g.nodes[id].stamp.Some?
    ensures var g' := Execute(g, PatchToOne(id), offered);
      && id in g'.nodes && g'.nodes[id].props == Counter(1) && g'.nodes[id].labels == g.nodes[id].labels
      && g'.nodes[id].stamp == Some(Stamp(offered.data, g.nodes[id].stamp.value.links))
  {
    var ops := Operations(PatchToOne(id));
    assert ops == [Patch(id, map["n" := Some(Number(1))], true)] && ops[1..] == [];
    assert RunAll(Run(g, ops[0], offered), ops[1..], offered) == Run(g, ops[0], offered);
    assert Patched(Counter(0), map["n" := Some(Number(1))]) == Counter(1);
    assert Counter(0)["n"] != Counter(1)["n"];
  }

  /** A node whose count is now 1 does not pass for one that was loaded with 0. */
  lemma CountIsCompared(json: Json, n: Node, torn: Torn)
    requires n.props == Counter(1) && torn.raw == Counter(0)
    ensures "n" in Compared(COUNTED, torn) && !RootAsLoaded(COUNTED, json, UNLABELLED, n, torn)
  {
    CountIsLoaded(json, 0);
    assert "n" != "id";
    assert "n" in COUNTED.initial.Keys && !Skipped(COUNTED, "n");
    assert "n" in Compared(COUNTED, torn);
    assert Counter(0)["n"] != Counter(1)["n"];
    assert !FieldAsLoaded(COUNTED, json, n.props, torn, "n");
  }

  /** Saved by its stamp alone, what was loaded loses a count; with what was loaded compared, the save is refused. */
  ghost predicate LosesByStamp(g: Graph, id: NodeId, json: Json, torn: Torn, stamp: Carried, offered: Stamp) {
    var byStamp := CheckedSave(id, CountClauses(json, torn.raw, torn.labels, {"n"}), stamp, (_: Node) => true);
    var g' := Execute(g, byStamp, offered);
    && id in g.nodes && GoesOn(g, byStamp) && id in g'.nodes && g'.nodes[id].props == Counter(1)
    && EditedNode(COUNTED, json, UNLABELLED, g.nodes[id], CountOn, {"n"}, []).props == Counter(2)
    && !GoesOn(g, UpdateOf(COUNTED, json, UNLABELLED, id, torn, stamp, CountOn, {"n"}, {"n"}, []))
  }

  lemma CountIsRefused(g: Graph, id: NodeId, json: Json, torn: Torn, stamp: Carried)
    requires id in g.nodes && !RootAsLoaded(COUNTED, json, UNLABELLED, g.nodes[id], torn)
    ensures !GoesOn(g, UpdateOf(COUNTED, json, UNLABELLED, id, torn, stamp, CountOn, {"n"}, {"n"}, []))
  {
  }

  lemma CountIsWrittenByStamp(g: Graph, id: NodeId, clauses: seq<Clause>, stamp: Stamp, offered: Stamp)
    requires id in g.nodes && g.nodes[id].stamp == Some(stamp) && Applied(g.nodes[id], clauses).props == Counter(1)
    ensures var byStamp := CheckedSave(id, clauses, Whole(stamp), (_: Node) => true);
      var g' := Execute(g, byStamp, offered);
      GoesOn(g, byStamp) && id in g'.nodes && g'.nodes[id].props == Counter(1)
  {
    CheckedSaveIsOneWrite(g, id, clauses, Whole(stamp), (_: Node) => true, offered);
  }

  lemma CountIsLost(g: Graph, id: NodeId, json: Json, stamp: Stamp, offered: Stamp)
    requires id in g.nodes && g.nodes[id].props == Counter(1) && g.nodes[id].stamp == Some(stamp)
    ensures LosesByStamp(g, id, json, Torn(Counter(0), g.nodes[id].labels), Whole(stamp), offered)
  {
    var torn := Torn(Counter(0), g.nodes[id].labels);
    CountIsWritten(json, 0, g.nodes[id], 1, {"n"});
    CountIsWrittenByStamp(g, id, CountClauses(json, torn.raw, torn.labels, {"n"}), stamp, offered);
    CountIsWritten(json, 1, g.nodes[id], 1, g.nodes[id].props.Keys);
    CountIsCompared(json, g.nodes[id], torn);
    CountIsRefused(g, id, json, torn, Whole(stamp));
  }

  /**
   * The stamp alone is not enough: in a run, a load that read the count before another writer made it 1, and the stamp
   * after, loses one of the two counts.
   */
  lemma StampAloneLosesTornUpdates(s: State, id: NodeId, json: Json, other: Stamp, offered: Stamp)
    requires Tokened(s) && Fresh(s, other)
    requires id in s.graph.nodes && s.graph.nodes[id].props == Counter(0) && s.graph.nodes[id].stamp.Some?
    ensures var e, torn := Event(PatchToOne(id), other), Torn(Counter(0), s.graph.nodes[id].labels);
      && IsRun([s, Next(s, e)], [e]) && LoadedBetween([s, Next(s, e)], 0, 1, id, torn, other.data)
      && LosesByStamp(Next(s, e).graph, id, json, torn, Whole(Stamp(other.data,
            s.graph.nodes[id].stamp.value.links)), offered)
  {
    var e := Event(PatchToOne(id), other);
    PatchedToOne(s.graph, id, other);
    ReadOver(s, e, id);
    CountIsLost(Next(s, e).graph, id, json, Stamp(other.data, s.graph.nodes[id].stamp.value.links), offered);
  }

  lemma ReadOver(s: State, e: Event, id: NodeId)
    requires Tokened(s) && Fresh(s, e.offered) && id in s.graph.nodes && HasData(Next(s, e).graph, id, e.offered.data)
    ensures IsRun([s, Next(s, e)], [e])
    ensures LoadedBetween([s, Next(s, e)], 0, 1, id, Torn(s.graph.nodes[id].props, s.graph.nodes[id].labels),
      e.offered.data)
  {
    var states, raw := [s, Next(s, e)], s.graph.nodes[id].props;
    forall name ensures ReadOnce(states, 0, 1, id, raw, name) {
      assert ReadAt(states[0].graph, id, raw, name);
    }
    assert states[0] == s && states[1] == Next(s, e);
  }
}
