/**
 * The lowercased copies a node keeps of some properties (src/model/LowerCopies.ts), what a save writes of them
 * (src/backend/SaveStatementBuilder.ts:208-217), and the rewrite of a condition to compare with them
 * (src/dsl/LowerCopyLookups.ts:23-50), written out by src/dsl/QueryRenderer.ts.
 */
module LowerCopies {
  import opened Wrappers
  import opened Truths

  /** A node's texts, a copy among them under the name of the property it is of, prefixed. */
  datatype Node = Node(labels: set<string>, texts: map<string, string>)

  const PREFIX := "__drivine.lower."

  function CopyOf(property: string): string {
    PREFIX + property
  }

  predicate IsCopy(name: string) {
    PREFIX <= name
  }

  lemma CopiesDiffer(p: string, q: string)
    ensures IsCopy(CopyOf(p)) && (CopyOf(p) == CopyOf(q) <==> p == q)
  {
    assert CopyOf(p)[|PREFIX|..] == p && CopyOf(q)[|PREFIX|..] == q;
  }

  function Text(node: Node, name: string): Option<string> {
    if name in node.texts then Some(node.texts[name]) else None
  }

  /** `toLower` of a value or of null. */
  function Lowered(lower: string -> string, text: Option<string>): Option<string> {
    if text.None? then None else Some(lower(text.value))
  }

  predicate InStep(lower: string -> string, node: Node, property: string) {
    Text(node, CopyOf(property)) == Lowered(lower, Text(node, property))
  }

  // ---- Writes

  function Put(texts: map<string, string>, name: string, text: Option<string>): map<string, string> {
    if text.Some? then texts[name := text.value] else texts - {name}
  }

  function SetCopies(lower: string -> string, node: Node, properties: seq<string>): Node
    decreases |properties|
  {
    if properties == [] then node
    else
      var p := properties[0];
      SetCopies(lower,
        node.(texts := Put(node.texts, CopyOf(p), Lowered(lower, Text(node, p)))), properties[1..])
  }

  /**
   * A save of a node: its labels, what it sets and clears, and the properties its model keeps copies of. The node is
   * made when it is not there.
   */
  datatype Write =
    | Save(id: nat, labels: set<string>, delta: map<string, Option<string>>, lowerCopied: seq<string>)
    | Delete(id: nat)

  type Nodes = map<nat, Node>

  function Patched(texts: map<string, string>, delta: map<string, Option<string>>): map<string, string> {
    map k | k in texts.Keys + delta.Keys && (k in delta
      ==> delta[k].Some?) :: if k in delta then delta[k].value else texts[k]
  }

  function Saved(lower: string -> string, node: Node, w: Write): Node
    requires w.Save?
  {
    SetCopies(lower, Node(node.labels + w.labels, Patched(node.texts, w.delta)), w.lowerCopied)
  }

  function Run(lower: string -> string, nodes: Nodes, w: Write): Nodes {
    if w.Delete? then nodes - {w.id}
    else nodes[w.id := Saved(lower, if w.id in nodes then nodes[w.id] else Node({}, map[]), w)]
  }

  /** A write through a model that names no copy as a property of its own. */
  predicate ThroughModel(w: Write) {
    w.Save? ==> (forall k <- w.delta :: !IsCopy(k)) && forall p <- w.lowerCopied :: !IsCopy(p)
  }

  /** The save's model keeps the copy where the save writes the property or gives the label. */
  predicate Minds(w: Write, onLabel: string, property: string) {
    w.Save? && (property in w.delta || onLabel in w.labels) ==> property in w.lowerCopied
  }

  lemma {:induction false} CopiesAreSet(lower: string -> string, node: Node, properties: seq<string>, p: string)
    requires !IsCopy(p) && forall q <- properties :: !IsCopy(q)
    ensures var r := SetCopies(lower, node, properties);
      && r.labels == node.labels
      && Text(r, p) == Text(node, p)
      && (if p in properties then InStep(lower, r, p) else Text(r, CopyOf(p)) == Text(node, CopyOf(p)))
    decreases |properties|
  {
    if properties != [] {
      var q := properties[0];
      var next := node.(texts := Put(node.texts, CopyOf(q), Lowered(lower, Text(node, q))));
      CopiesDiffer(p, q);
      assert q in properties && forall k <- properties[1..] :: k in properties;
      assert Text(next, p) == Text(node, p);
      CopiesAreSet(lower, next, properties[1..], p);
    }
  }

  /** What a save leaves of a property that is no copy: what it sets, nothing of what it clears, the rest as it was. */
  lemma SavedHolds(lower: string -> string, nodes: Nodes, w: Write, name: string)
    requires w.Save? && ThroughModel(w) && !IsCopy(name)
    ensures var g := Run(lower, nodes, w);
      && g.Keys == nodes.Keys + {w.id} && (forall id <- nodes | id != w.id :: g[id] == nodes[id])
      && g[w.id].labels == (if w.id in nodes then nodes[w.id].labels else {}) + w.labels
      && (name in g[w.id].texts <==>
            if name in w.delta then w.delta[name].Some? else w.id in nodes && name in nodes[w.id].texts)
      && (name in g[w.id].texts ==>
            g[w.id].texts[name] == if name in w.delta then w.delta[name].value else nodes[w.id].texts[name])
  {
    var node := if w.id in nodes then nodes[w.id] else Node({}, map[]);
    CopiesAreSet(lower, Node(node.labels + w.labels, Patched(node.texts, w.delta)), w.lowerCopied, name);
  }

  lemma DeleteTakes(lower: string -> string, nodes: Nodes, w: Write)
    requires w.Delete?
    ensures forall id :: id in Run(lower, nodes, w) <==> id in nodes && id != w.id
    ensures forall id <- Run(lower, nodes, w) :: Run(lower, nodes, w)[id] == nodes[id]
  {}

  /** A node is out of step after a write only where it was before. */
  lemma WriteKeepsStep(lower: string -> string, nodes: Nodes, w: Write, onLabel: string, property: string, id: nat)
    requires ThroughModel(w) && Minds(w, onLabel, property) && !IsCopy(property)
    requires id in Run(lower, nodes, w) && onLabel in Run(lower, nodes, w)[id].labels
    requires id in nodes && onLabel in nodes[id].labels ==> InStep(lower, nodes[id], property)
    ensures InStep(lower, Run(lower, nodes, w)[id], property)
  {
    if w.Save? && id == w.id {
      var node := if w.id in nodes then nodes[w.id] else Node({}, map[]);
      var patched := Node(node.labels + w.labels, Patched(node.texts, w.delta));
      CopiesAreSet(lower, patched, w.lowerCopied, property);
      CopiesDiffer(property, property);
    }
  }

  // ---- Conditions

  datatype Operator = EqIgnoreCase | ContainsIgnoreCase | EqLowered | ContainsLowered | AnyOther(name: string)

  /** What a field is compared with: as text, and whether it was one. */
  datatype Given = Given(text: string, isText: bool)

  datatype Test = Compare(operator: Operator, value: Given) | OfNodes(what: string)

  datatype Condition =
    | And(conditions: seq<Condition>)
    | Or(conditions: seq<Condition>)
    | Not(conditions: seq<Condition>)
    | Path(path: seq<string>, test: Test)

  datatype ScopeKind = ViewScope | FragmentScope | BagScope | RelFragmentScope

  datatype Scope = Scope(kind: ScopeKind, id: nat)

  /** Where one field of a path leads: to the same node, to a property, or anywhere else or nowhere. */
  datatype Step = SameNode(scope: Scope) | Property(name: string) | Elsewhere

  const STORED := '\0'

  function StoredName(name: string): string {
    [STORED] + name
  }

  function StepAt(model: (Scope, string) -> Step, scope: Scope, name: string): Step {
    if name != "" && name[0] == STORED then Property(name[1..]) else model(scope, name)
  }

  /** The stored name of the root's property a path leads to, where it leads to one. */
  function RootProperty(model: (Scope, string) -> Step, scope: Scope, path: seq<string>): Option<string>
    decreases |path|
  {
    if path == [] then None
    else
      match StepAt(model, scope, path[0])
      case SameNode(next) => RootProperty(model, next, path[1..])
      case Property(name) => if |path| == 1 && scope.kind != RelFragmentScope then Some(name) else None
      case Elsewhere => None
  }

  /** Each field but the last leads to the same node, through these scopes, and the last to a property of it. */
  predicate Arrives(model: (Scope, string) -> Step, scopes: seq<Scope>, path: seq<string>, name: string) {
    && path != [] && |scopes| == |path|
    && (forall i: nat | i < |path| - 1 :: StepAt(model, scopes[i], path[i]) == SameNode(scopes[i + 1]))
    && StepAt(model, scopes[|path| - 1], path[|path| - 1]) == Property(name)
    && scopes[|path| - 1].kind != RelFragmentScope
  }

  lemma {:induction false} RootPropertyIs(model: (Scope, string) -> Step, scope: Scope, path: seq<string>, name: string)
    ensures RootProperty(model, scope, path) == Some(name) <==>
      exists scopes: seq<Scope> :: scopes != [] && scopes[0] == scope && Arrives(model, scopes, path, name)
    decreases |path|
  {
    if |path| == 1 {
      assert Arrives(model, [scope], path, name) <==> RootProperty(model, scope, path) == Some(name);
    } else if |path| > 1 {
      var step := StepAt(model, scope, path[0]);
      if step.SameNode? {
        RootPropertyIs(model, step.scope, path[1..], name);
        if scopes: seq<Scope> :| scopes != [] && scopes[0] == step.scope && Arrives(model, scopes, path[1..], name) {
          assert Arrives(model, [scope] + scopes, path, name);
        }
      }
      forall scopes: seq<Scope> | scopes != [] && scopes[0] == scope && Arrives(model, scopes, path, name)
        ensures step.SameNode? && scopes[1] == step.scope && Arrives(model, scopes[1..], path[1..], name)
      {
        var first: nat := 0;
        assert StepAt(model, scopes[first], path[first]) == SameNode(scopes[first + 1]);
      }
    }
  }

  /** What an engine and a model make of a condition: its lowercasing, where paths lead, and every other test. */
  datatype Engine = Engine(
    lower: string -> string, model: (Scope, string) -> Step, other: (Node, seq<string>, Test) -> Truth)

  predicate Contains(text: string, part: string) {
    part <= text || (text != "" && Contains(text[1..], part))
  }

  function Equal(a: Option<string>, b: string): Truth {
    if a.None? then Unknown else Of(a.value == b)
  }

  function Containing(a: Option<string>, b: string): Truth {
    if a.None? then Unknown else Of(Contains(a.value, b))
  }

  function EvalPath(e: Engine, scope: Scope, node: Node, path: seq<string>, test: Test): Truth {
    var property := RootProperty(e.model, scope, path);
    if property.None? || test.OfNodes? then e.other(node, path, test)
    else
      var held := Text(node, property.value);
      match test.operator
      case EqIgnoreCase => Equal(Lowered(e.lower, held), e.lower(test.value.text))
      case ContainsIgnoreCase => Containing(Lowered(e.lower, held), e.lower(test.value.text))
      case EqLowered => Equal(held, e.lower(test.value.text))
      case ContainsLowered => Containing(held, e.lower(test.value.text))
      case AnyOther(_) => e.other(node, path, test)
  }

  function Eval(e: Engine, scope: Scope, node: Node, c: Condition): Truth {
    match c
    case And(cs) => AllOf(seq(|cs|, i requires 0 <= i < |cs| => Eval(e, scope, node, cs[i])))
    case Or(cs) => AnyOf(seq(|cs|, i requires 0 <= i < |cs| => Eval(e, scope, node, cs[i])))
    case Not(cs) => Truths.Not(AllOf(seq(|cs|, i requires 0 <= i < |cs| => Eval(e, scope, node, cs[i]))))
    case Path(path, test) => EvalPath(e, scope, node, path, test)
  }

  /** The part stands somewhere in the text. */
  ghost predicate Occurs(text: string, part: string) {
    exists i | 0 <= i <= |text| - |part| :: text[i..][..|part|] == part
  }

  lemma {:induction false} ContainsIs(text: string, part: string)
    ensures Contains(text, part) <==> Occurs(text, part)
  {
    if part <= text {
      assert text[0..][..|part|] == part;
    } else if text != "" {
      ContainsIs(text[1..], part);
      forall i: nat | i + 1 <= |text| ensures text[i + 1..] == text[1..][i..] {}
      if i :| 0 <= i <= |text| - |part| && text[i..][..|part|] == part {
        assert i > 0 && text[1..][i - 1..][..|part|] == part;
      }
      if i :| 0 <= i <= |text[1..]| - |part| && text[1..][i..][..|part|] == part {
        assert text[i + 1..][..|part|] == part;
      }
    }
  }

  /** What a comparison says of a node: nothing where it has no text, and otherwise whether its text, lowered, is so. */
  lemma ComparisonsSay(e: Engine, scope: Scope, node: Node, path: seq<string>, operator: Operator, value: Given)
    requires RootProperty(e.model, scope, path).Some? && !operator.AnyOther?
    ensures var name, given := RootProperty(e.model, scope, path).value, value.text;
      Eval(e, scope, node, Path(path, Compare(operator, value))) ==
        if name !in node.texts then Unknown
        else match operator
          case EqIgnoreCase => Of(e.lower(node.texts[name]) == e.lower(given))
          case EqLowered => Of(node.texts[name] == e.lower(given))
          case ContainsIgnoreCase => Of(Occurs(e.lower(node.texts[name]), e.lower(given)))
          case _ => Of(Occurs(node.texts[name], e.lower(given)))
  {
    var name := RootProperty(e.model, scope, path).value;
    if name in node.texts {
      ContainsIs(e.lower(node.texts[name]), e.lower(value.text));
      ContainsIs(node.texts[name], e.lower(value.text));
    }
  }

  /** When a condition keeps a node: of several all, or one, and of a `not` one that says no. */
  lemma KeepsANode(e: Engine, scope: Scope, node: Node, cs: seq<Condition>)
    ensures Eval(e, scope, node, And(cs)) == Yes <==>
      forall i | 0 <= i < |cs| :: Eval(e, scope, node, cs[i]) == Yes
    ensures Eval(e, scope, node, Or(cs)) == Yes <==>
      exists i | 0 <= i < |cs| :: Eval(e, scope, node, cs[i]) == Yes
    ensures Eval(e, scope, node, Not(cs)) == Yes <==>
      exists i | 0 <= i < |cs| :: Eval(e, scope, node, cs[i]) == No
  {
    var ts := seq(|cs|, i requires 0 <= i < |cs| => Eval(e, scope, node, cs[i]));
    AllOfIsYes(ts);
    AnyOfIsYes(ts);
    AllOfIsNo(ts);
    assert forall i | 0 <= i < |cs| :: ts[i] == Eval(e, scope, node, cs[i]);
  }

  // ---- The rewrite

  function OnCopy(operator: Operator): Option<Operator> {
    match operator
    case EqIgnoreCase => Some(EqLowered)
    case ContainsIgnoreCase => Some(ContainsLowered)
    case _ => None
  }

  function LoweredPath(
      model: (Scope, string) -> Step, scope: Scope, filled: set<string>, path: seq<string>, test: Test): Condition
  {
    if test.OfNodes? || OnCopy(test.operator).None? || !test.value.isText || test.value.text == "" then Path(path, test)
    else
      var property := RootProperty(model, scope, path);
      if property.None? || property.value !in filled then Path(path, test)
      else
        Path(path[..|path| - 1] + [StoredName(CopyOf(property.value))],
          Compare(OnCopy(test.operator).value, test.value))
  }

  function Rewritten(model: (Scope, string) -> Step, scope: Scope, filled: set<string>, c: Condition): Condition {
    match c
    case Path(path, test) => LoweredPath(model, scope, filled, path, test)
    case And(cs) => And(seq(|cs|, i requires 0 <= i < |cs| => Rewritten(model, scope, filled, cs[i])))
    case Or(cs) => Or(seq(|cs|, i requires 0 <= i < |cs| => Rewritten(model, scope, filled, cs[i])))
    case Not(cs) => Not(seq(|cs|, i requires 0 <= i < |cs| => Rewritten(model, scope, filled, cs[i])))
  }

  lemma {:induction false} CopyIsFound(model: (Scope, string) -> Step, scope: Scope, path: seq<string>, copy: string)
    requires RootProperty(model, scope, path).Some?
    ensures path != []
    ensures RootProperty(model, scope, path[..|path| - 1] + [StoredName(copy)]) == Some(copy)
    decreases |path|
  {
    var to := path[..|path| - 1] + [StoredName(copy)];
    if |path| == 1 {
      assert to == [StoredName(copy)];
      assert StoredName(copy)[1..] == copy;
    } else {
      var step := StepAt(model, scope, path[0]);
      CopyIsFound(model, step.scope, path[1..], copy);
      assert to[1..] == path[1..][..|path| - 2] + [StoredName(copy)];
    }
  }

  /**
   * Which comparisons are rewritten: those that ignore case of a property of the root whose copy is filled in, with a
   * text that is not empty. Each is then made of the copy, of the same kind.
   */
  lemma ComparisonsAreRewritten(
      model: (Scope, string) -> Step, scope: Scope, filled: set<string>, path: seq<string>, test: Test)
    ensures var property, to := RootProperty(model, scope, path), Rewritten(model, scope, filled, Path(path, test));
      if property.Some? && property.value in filled && test.Compare? && test.value.isText && test.value.text != ""
         && (test.operator == EqIgnoreCase || test.operator == ContainsIgnoreCase)
      then
        && to.Path? && RootProperty(model, scope, to.path) == Some(CopyOf(property.value))
        && to.test == Compare(if test.operator == EqIgnoreCase then EqLowered else ContainsLowered, test.value)
      else to == Path(path, test)
  {
    var property := RootProperty(model, scope, path);
    if property.Some? {
      CopyIsFound(model, scope, path, CopyOf(property.value));
    }
  }

  /**
   * On a node whose copies are in step, a rewritten condition gives what it gave, null included, however it is nested.
   */
  lemma {:induction false} RewriteKeepsTheAnswer(e: Engine, scope: Scope, filled: set<string>, node: Node, c: Condition)
    requires forall p <- filled :: InStep(e.lower, node, p)
    ensures Eval(e, scope, node, Rewritten(e.model, scope, filled, c)) == Eval(e, scope, node, c)
    decreases c, 1
  {
    match c
    case Path(path, test) =>
      var property := RootProperty(e.model, scope, path);
      if property.Some? && property.value in filled {
        CopyIsFound(e.model, scope, path, CopyOf(property.value));
      }
    case And(cs) => PartsKeepTheAnswer(e, scope, filled, node, c);
    case Or(cs) => PartsKeepTheAnswer(e, scope, filled, node, c);
    case Not(cs) => PartsKeepTheAnswer(e, scope, filled, node, c);
  }

  lemma {:induction false} PartsKeepTheAnswer(e: Engine, scope: Scope, filled: set<string>, node: Node, c: Condition)
    requires !c.Path? && forall p <- filled :: InStep(e.lower, node, p)
    ensures Eval(e, scope, node, Rewritten(e.model, scope, filled, c)) == Eval(e, scope, node, c)
    decreases c, 0
  {
    var cs := c.conditions;
    var to := seq(|cs|, i requires 0 <= i < |cs| => Rewritten(e.model, scope, filled, cs[i]));
    forall i | 0 <= i < |cs| ensures Eval(e, scope, node, to[i]) == Eval(e, scope, node, cs[i]) {
      RewriteKeepsTheAnswer(e, scope, filled, node, cs[i]);
    }
    assert seq(|to|, i requires 0 <= i < |to| => Eval(e, scope, node, to[i]))
      == seq(|cs|, i requires 0 <= i < |cs| => Eval(e, scope, node, cs[i]));
  }

  // ---- The condition as a WHERE

  /** The parts of the outermost AND and of those directly in it, each written out beside the others. */
  function Conjuncts(c: Condition): seq<Condition>
    decreases c, 1
  {
    if c.And? && c.conditions != [] then FlatConjuncts(c.conditions) else [c]
  }

  function FlatConjuncts(cs: seq<Condition>): seq<Condition>
    decreases cs, 0
  {
    if cs == [] then [] else Conjuncts(cs[0]) + FlatConjuncts(cs[1..])
  }

  function EvalEach(e: Engine, scope: Scope, node: Node, cs: seq<Condition>): seq<Truth> {
    seq(|cs|, i requires 0 <= i < |cs| => Eval(e, scope, node, cs[i]))
  }

  /** None of them is itself an AND of anything. */
  lemma {:induction false} ConjunctsAreNoAnds(c: Condition)
    ensures Conjuncts(c) != [] && forall it <- Conjuncts(c) :: !it.And? || it.conditions == []
    decreases c, 1
  {
    if c.And? && c.conditions != [] {
      FlatAreNoAnds(c.conditions);
    }
  }

  lemma {:induction false} FlatAreNoAnds(cs: seq<Condition>)
    ensures cs != [] ==> FlatConjuncts(cs) != []
    ensures forall it <- FlatConjuncts(cs) :: !it.And? || it.conditions == []
    decreases cs, 0
  {
    if cs != [] {
      ConjunctsAreNoAnds(cs[0]);
      FlatAreNoAnds(cs[1..]);
    }
  }

  /** Joined by AND with no parentheses, they give what the condition gives. */
  lemma {:induction false} WhereIsTheCondition(e: Engine, scope: Scope, node: Node, c: Condition)
    ensures AllOf(EvalEach(e, scope, node, Conjuncts(c))) == Eval(e, scope, node, c)
    decreases c, 1
  {
    if c.And? && c.conditions != [] {
      FlatIsTheConditions(e, scope, node, c.conditions);
    } else {
      assert EvalEach(e, scope, node, [c]) == [Eval(e, scope, node, c)];
    }
  }

  lemma {:induction false} FlatIsTheConditions(e: Engine, scope: Scope, node: Node, cs: seq<Condition>)
    ensures AllOf(EvalEach(e, scope, node, FlatConjuncts(cs))) == AllOf(EvalEach(e, scope, node, cs))
    decreases cs, 0
  {
    if cs != [] {
      WhereIsTheCondition(e, scope, node, cs[0]);
      FlatIsTheConditions(e, scope, node, cs[1..]);
      var first, rest := Conjuncts(cs[0]), FlatConjuncts(cs[1..]);
      assert EvalEach(e, scope, node, first + rest) == EvalEach(e, scope, node, first) + EvalEach(e, scope, node, rest);
      AllOfBoth(EvalEach(e, scope, node, first), EvalEach(e, scope, node, rest));
      assert EvalEach(e, scope, node, cs)[1..] == EvalEach(e, scope, node, cs[1..]);
    }
  }
}
