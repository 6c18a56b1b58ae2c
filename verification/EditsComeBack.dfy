/**
 * What an update's change gives is what a load then gives: its fields, and the entries of its bags
 * (src/manager/StatelessGraphObjectManager.ts:887-927 with src/backend/SaveStatementBuilder.ts:745-840).
 */
module EditsComeBack {
  import opened Wrappers
  import opened Graphs
  import opened Mapping
  import opened RoundTrip
  import opened TornLoads
  import opened TornUpdates

  // ---- What the change altered

  ghost predicate DistinctPairs(fields: seq<(string, FieldValue)>) {
    forall i, j | 0 <= i < j < |fields| :: fields[i].0 != fields[j].0
  }

  predicate IsChanged(seen: Seen, f: (string, FieldValue)) {
    !(f.0 in seen.fields && seen.fields[f.0] == f.1)
  }

  lemma {:induction false} ChangedFieldsAre(seen: Seen, fields: seq<(string, FieldValue)>)
    requires DistinctPairs(fields)
    ensures forall f :: f in ChangedFields(seen, fields) <==> f in fields && IsChanged(seen, f)
    ensures DistinctPairs(ChangedFields(seen, fields))
  {
    if fields != [] {
      ChangedFieldsAre(seen, fields[1..]);
      assert fields == [fields[0]] + fields[1..];
      forall g | g in ChangedFields(seen, fields[1..]) ensures g.0 != fields[0].0 {
        var i :| 0 <= i < |fields| - 1 && fields[1..][i] == g;
        assert fields[i + 1] == g;
      }
      if IsChanged(seen, fields[0]) {
        OneMoreDistinct(fields[0], ChangedFields(seen, fields[1..]));
      }
    }
  }

  lemma OneMoreDistinct(f: (string, FieldValue), rest: seq<(string, FieldValue)>)
    requires DistinctPairs(rest) && forall g <- rest :: g.0 != f.0
    ensures DistinctPairs([f] + rest)
  {
    var all := [f] + rest;
    forall i, j | 0 <= i < j < |all| ensures all[i].0 != all[j].0 {
      assert all[j] == rest[j - 1] && rest[j - 1] in rest;
    }
  }

  predicate BagChanged(seen: Seen, o: Object, b: Bag) {
    !(b in seen.bags && SameEntries(seen.bags[b], EntriesOf(o, b)))
  }

  ghost predicate DistinctBags(bags: seq<Bag>) {
    forall i, j | 0 <= i < j < |bags| :: bags[i] != bags[j]
  }

  lemma {:induction false} ChangedBagsAre(bags: seq<Bag>, seen: Seen, o: Object)
    requires DistinctBags(bags)
    ensures forall b :: b in ChangedBags(bags, seen, o) <==> b in bags && BagChanged(seen, o, b)
    ensures DistinctBags(ChangedBags(bags, seen, o))
  {
    if bags != [] {
      ChangedBagsAre(bags[1..], seen, o);
      assert bags == [bags[0]] + bags[1..];
      assert bags[0] !in bags[1..];
      var rest := ChangedBags(bags[1..], seen, o);
      forall i, j | 0 <= i < j < |[bags[0]] + rest| ensures ([bags[0]] + rest)[i] != ([bags[0]] + rest)[j] {
        assert ([bags[0]] + rest)[j] == rest[j - 1] && rest[j - 1] in rest;
      }
    }
  }

  // ---- What is written

  lemma {:induction false} LabelsOnly(n: Node, clauses: seq<Clause>)
    requires forall c <- clauses :: !c.SetProps?
    ensures Applied(n, clauses).props == n.props
    decreases |clauses|
  {
    if clauses != [] {
      assert clauses[0] in clauses;
      LabelsOnly(ClauseApplied(n, clauses[0]), clauses[1..]);
    }
  }

  lemma {:induction false} TakenAwayIsLabels(lm: LabelsModel, owned: seq<string>, labels: seq<string>)
    ensures forall c <- TakenAway(lm, owned, labels) :: c.RemoveLabel?
  {
    if owned != [] {
      TakenAwayIsLabels(lm, owned[1..], labels);
    }
  }

  lemma TwoSets(n: Node, a: Delta, b: Delta, labels: seq<Clause>)
    requires forall c <- labels :: !c.SetProps?
    ensures Applied(n, [SetProps(a), SetProps(b)] + labels).props == Patched(Patched(n.props, a), b)
  {
    var all := [SetProps(a), SetProps(b)] + labels;
    assert all[1..] == [SetProps(b)] + labels && all[1..][1..] == labels;
    LabelsOnly(ClauseApplied(ClauseApplied(n, SetProps(a)), SetProps(b)), labels);
  }

  /** The properties a save of the change leaves. */
  function EditedProps(m: Model, json: Json, node: Props, seen: Seen, o: Object): Props {
    Patched(Patched(node, FieldProps(m, json, ChangedFields(seen, o.fields), Clear)),
            BagProps(m, o, ChangedBags(m.bags, seen, o), node.Keys, Clear))
  }

  lemma EditedNodeHolds(
      m: Model, json: Json, lm: LabelsModel, n: Node, edit: Edit, fields: set<string>, owned: seq<string>)
    ensures var seen := SeenOf(m, json, lm, n.props, n.labels, fields);
      EditedNode(m, json, lm, n, edit, fields, owned).props
        == EditedProps(m, json, n.props, seen, edit(seen).root)
  {
    var seen := SeenOf(m, json, lm, n.props, n.labels, fields);
    var edited := edit(seen);
    var labels := if (set l | l in edited.labels) == seen.labels then []
      else Added(edited.labels) + TakenAway(lm, owned, edited.labels);
    TakenAwayIsLabels(lm, owned, edited.labels);
    TwoSets(n, FieldProps(m, json, ChangedFields(seen, edited.root.fields), Clear),
      BagProps(m, edited.root, ChangedBags(m.bags, seen, edited.root), n.props.Keys, Clear), labels);
  }

  /** What a save of some of the bags writes under a name, by the one bag that may. */
  lemma SomeBagsAt(m: Model, o: Object, bags: seq<Bag>, held: set<string>, name: string)
    requires RoundTrip.WellFormed(m, o) && DistinctBags(bags) && forall b <- bags :: b in m.bags
    ensures name in BagProps(m, o, bags, held, Clear)
      <==> exists b <- bags :: RoundTrip.Touches(o, b, name, held, Clear)
    ensures forall b <- bags | RoundTrip.Touches(o, b, name, held, Clear) ::
      BagProps(m, o, bags, held, Clear)[name]
        == if Enters(o, b, name) then Some(Given(o, b)[name[|b.namespace|..]]) else None
  {
    BagsAreSeparate(m, o);
    BagPropsAt(m, o, bags, held, Clear, name);
  }

  // ---- Fields

  lemma NoBagWritesField(m: Model, o: Object, bags: seq<Bag>, held: set<string>, f: (string, FieldValue))
    requires RoundTrip.WellFormed(m, o) && DistinctBags(bags) && forall b <- bags :: b in m.bags
    requires f in o.fields && !Skipped(m, f.0)
    ensures NameOf(m, f.0) !in BagProps(m, o, bags, held, Clear)
  {
    var name := NameOf(m, f.0);
    SomeBagsAt(m, o, bags, held, name);
    assert OwnName(m, f.0) && WritesName(m, f.0, name);
    forall b <- bags ensures !RoundTrip.Touches(o, b, name, held, Clear) {
      if b.flat && Enters(o, b, name) {
        FlatEntersOnlyItsOwn(m, o, b, name);
      }
    }
  }

  lemma UnchangedIsNotWritten(
      m: Model, json: Json, o: Object, changed: seq<(string, FieldValue)>, f: (string, FieldValue))
    requires RoundTrip.WellFormed(m, o) && f in o.fields && !Skipped(m, f.0) && f !in changed
    requires forall g <- changed :: g in o.fields
    ensures NameOf(m, f.0) !in FieldProps(m, json, changed, Clear)
  {
    FieldPropsOnly(m, json, changed, Clear, NameOf(m, f.0));
    forall g <- changed | !Skipped(m, g.0) ensures NameOf(m, g.0) != NameOf(m, f.0) {
      OwnNameIsLoaded(m, f.0);
      OwnNameIsLoaded(m, g.0);
      SamePair(o, f, g);
    }
  }

  lemma SamePair(o: Object, f: (string, FieldValue), g: (string, FieldValue))
    requires DistinctFields(o) && f in o.fields && g in o.fields
    ensures f.0 == g.0 ==> f == g
  {
    var i :| 0 <= i < |o.fields| && o.fields[i] == f;
    var j :| 0 <= j < |o.fields| && o.fields[j] == g;
  }

  /** Each field the change gives is what a load then gives it; one it gives null is as one the node does not hold. */
  lemma FieldsComeBackEdited(m: Model, json: Json, node: Props, seen: Seen, o: Object, f: (string, FieldValue))
    requires RoundTrip.WellFormed(m, o) && Faithful(json) && f in o.fields && !Skipped(m, f.0)
    requires f.0 in seen.fields ==> seen.fields[f.0] == Loaded(m, json, node, f.0)
    ensures Loaded(m, json, EditedProps(m, json, node, seen, o), f.0) == if f.1.Null? then Absent(m, f.0) else f.1
  {
    var name, after := NameOf(m, f.0), EditedProps(m, json, node, seen, o);
    FieldIsEdited(m, json, node, seen, o, f);
    assert OwnName(m, f.0);
    LoadedFromOwnName(m, json, node, f.0);
    LoadedFromOwnName(m, json, after, f.0);
    if IsChanged(seen, f) && !f.1.Null? {
      PresentIsWhatWasStored(m, json, f.0, f.1);
    }
  }

  /** What the node then holds for a field: what is stored of it, nothing of a null, and as before where unchanged. */
  lemma FieldIsEdited(m: Model, json: Json, node: Props, seen: Seen, o: Object, f: (string, FieldValue))
    requires RoundTrip.WellFormed(m, o) && f in o.fields && !Skipped(m, f.0)
    ensures var name, after := NameOf(m, f.0), EditedProps(m, json, node, seen, o);
      if !IsChanged(seen, f) then (name in after <==> name in node) && (name in after ==> after[name] == node[name])
      else if f.1.Null? then name !in after
      else name in after && after[name] == Stored(json, f.1, f.0 in m.packed).value
  {
    var changed, bags := ChangedFields(seen, o.fields), ChangedBags(m.bags, seen, o);
    ChangedFieldsAre(seen, o.fields);
    BagsOnce(m);
    ChangedBagsAre(m.bags, seen, o);
    NoBagWritesField(m, o, bags, node.Keys, f);
    if IsChanged(seen, f) {
      var i :| 0 <= i < |changed| && changed[i] == f;
      FieldPropsAt(m, json, changed, Clear, i);
    } else {
      UnchangedIsNotWritten(m, json, o, changed, f);
    }
  }

  lemma BagsOnce(m: Model)
    requires WellDeclared(m)
    ensures DistinctBags(m.bags)
  {
  }

  // ---- Bags

  lemma BagEntryComesBackEdited(m: Model, json: Json, node: Props, seen: Seen, o: Object, b: Bag, k: string)
    requires RoundTrip.WellFormed(m, o) && b in m.bags && b in seen.bags && seen.bags[b] == LoadedBag(m, node, b)
    ensures var after := LoadedBag(m, EditedProps(m, json, node, seen, o), b);
      SameAt(after, if b.flat then LoadedBag(m, node, b) + Given(o, b) else Given(o, b), k)
  {
    var name, changed, bags := b.namespace + k, ChangedFields(seen, o.fields), ChangedBags(m.bags, seen, o);
    assert name[|b.namespace|..] == k;
    ChangedFieldsAre(seen, o.fields);
    BagsOnce(m);
    ChangedBagsAre(m.bags, seen, o);
    LoadedBagAt(m, EditedProps(m, json, node, seen, o), b, k);
    LoadedBagAt(m, node, b, k);
    SomeBagsAt(m, o, bags, node.Keys, name);
    if k in Given(o, b) {
      EntriesAreHeld(m, o, b, k);
      GivenStays(m, json, node, seen, o, b, k);
    } else if Holds(m, b, name) {
      NoFieldWritesEntry(m, json, o, changed, node.Keys, b, k);
      OnlyItsBagTouches(m, o, node.Keys, Clear, b, k);
      if b in bags {
        assert RoundTrip.Touches(o, b, name, node.Keys, Clear) <==> !b.flat && name in node;
      }
    }
  }

  lemma NoFieldWritesEntry(
      m: Model, json: Json, o: Object, changed: seq<(string, FieldValue)>, held: set<string>, b: Bag, k: string)
    requires RoundTrip.WellFormed(m, o) && b in m.bags && Holds(m, b, b.namespace + k) && k !in Given(o, b)
    requires forall f <- changed :: f in o.fields
    ensures b.namespace + k !in FieldProps(m, json, changed, Clear)
  {
    var name := b.namespace + k;
    NoOtherWrites(m, json, o, held, Clear, b, k);
    FieldPropsOnly(m, json, changed, Clear, name);
    FieldPropsOnly(m, json, o.fields, Clear, name);
  }

  /** An entry that is given is held afterwards: written, or, of a bag that was not changed, left where it was. */
  lemma GivenStays(m: Model, json: Json, node: Props, seen: Seen, o: Object, b: Bag, k: string)
    requires RoundTrip.WellFormed(m, o) && b in m.bags && b in seen.bags && seen.bags[b] == LoadedBag(m, node, b)
    requires k in Given(o, b)
    ensures var after, name := EditedProps(m, json, node, seen, o), b.namespace + k;
      name in after && after[name] == Given(o, b)[k]
  {
    var name, changed, bags := b.namespace + k, ChangedFields(seen, o.fields), ChangedBags(m.bags, seen, o);
    assert name[|b.namespace|..] == k;
    ChangedFieldsAre(seen, o.fields);
    BagsOnce(m);
    ChangedBagsAre(m.bags, seen, o);
    SomeBagsAt(m, o, bags, node.Keys, name);
    EntriesAreHeld(m, o, b, k);
    if b in bags {
      assert RoundTrip.Touches(o, b, name, node.Keys, Clear);
    } else {
      LoadedBagAt(m, node, b, k);
      BagsAreSeparate(m, o);
      forall a <- bags ensures !RoundTrip.Touches(o, a, name, node.Keys, Clear) {
        assert RoundTrip.Touches(o, a, name, node.Keys, Clear) ==> Owns(o, a, name) && Owns(o, b, name);
      }
      NoFieldWritesGiven(m, json, o, changed, b, k);
    }
  }

  lemma NoFieldWritesGiven(m: Model, json: Json, o: Object, changed: seq<(string, FieldValue)>, b: Bag, k: string)
    requires RoundTrip.WellFormed(m, o) && b in m.bags && k in Given(o, b)
    requires forall f <- changed :: f in o.fields
    ensures b.namespace + k !in FieldProps(m, json, changed, Clear)
  {
    var name := b.namespace + k;
    FieldPropsOnly(m, json, changed, Clear, name);
    EntriesAreHeld(m, o, b, k);
    if b.flat {
      FlatEntersOnlyItsOwn(m, o, b, name);
    } else {
      assert InNamespace(b, name);
    }
    forall f <- changed | !Skipped(m, f.0) ensures NameOf(m, f.0) != name {
      assert OwnName(m, f.0) && (NameOf(m, f.0) == name ==> WritesName(m, f.0, name));
    }
  }

  /**
   * Each bag comes back as the change gives it; a flat one over what the node held, since the entries of a flat bag are
   * not cleared.
   */
  lemma BagsComeBackEdited(m: Model, json: Json, node: Props, seen: Seen, o: Object, b: Bag)
    requires RoundTrip.WellFormed(m, o) && b in m.bags && b in seen.bags && seen.bags[b] == LoadedBag(m, node, b)
    ensures LoadedBag(m, EditedProps(m, json, node, seen, o), b)
      == if b.flat then LoadedBag(m, node, b) + Given(o, b) else Given(o, b)
  {
    var after := LoadedBag(m, EditedProps(m, json, node, seen, o), b);
    var expected := if b.flat then LoadedBag(m, node, b) + Given(o, b) else Given(o, b);
    forall k ensures SameAt(after, expected, k) {
      BagEntryComesBackEdited(m, json, node, seen, o, b, k);
    }
    SameEverywhere(after, expected);
  }

  /** What one step of an update leaves is what its change gave: a load of the node then gives it back. */
  lemma EditComesBack(
      m: Model, json: Json, lm: LabelsModel, n: Node, edit: Edit, fields: set<string>, owned: seq<string>)
    requires Faithful(json)
    requires RoundTrip.WellFormed(m, edit(SeenOf(m, json, lm, n.props, n.labels, fields)).root)
    ensures var o := edit(SeenOf(m, json, lm, n.props, n.labels, fields)).root;
      var after := EditedNode(m, json, lm, n, edit, fields, owned).props;
      && (forall f <- o.fields | !Skipped(m, f.0) ::
            Loaded(m, json, after, f.0) == if f.1.Null? then Absent(m, f.0) else f.1)
      && forall b <- m.bags ::
           LoadedBag(m, after, b) == if b.flat then LoadedBag(m, n.props, b) + Given(o, b) else Given(o, b)
  {
    var seen := SeenOf(m, json, lm, n.props, n.labels, fields);
    var o := edit(seen).root;
    EditedNodeHolds(m, json, lm, n, edit, fields, owned);
    forall f <- o.fields | !Skipped(m, f.0)
      ensures Loaded(m, json, EditedProps(m, json, n.props, seen, o), f.0) == if f.1.Null? then Absent(m, f.0) else f.1
    {
      FieldsComeBackEdited(m, json, n.props, seen, o, f);
    }
    forall b <- m.bags
      ensures LoadedBag(m, EditedProps(m, json, n.props, seen, o), b)
        == if b.flat then LoadedBag(m, n.props, b) + Given(o, b) else Given(o, b)
    {
      BagsComeBackEdited(m, json, n.props, seen, o, b);
    }
  }

  // ---- Labels

  lemma {:induction false} LabelsAdded(n: Node, labels: seq<string>, rest: seq<Clause>)
    ensures Applied(n, Added(labels) + rest) == Applied(n.(labels := n.labels + set l | l in labels), rest)
    decreases |labels|
  {
    if labels == [] {
      assert Added(labels) + rest == rest && n.labels + (set l | l in labels) == n.labels;
    } else {
      var next := n.(labels := n.labels + {labels[0]});
      assert Added(labels) + rest == [AddLabel(labels[0])] + (Added(labels[1..]) + rest);
      LabelsAdded(next, labels[1..], rest);
      assert next.labels + (set l | l in labels[1..]) == n.labels + set l | l in labels;
    }
  }

  lemma {:induction false} LabelsTaken(n: Node, lm: LabelsModel, owned: seq<string>, labels: seq<string>)
    ensures var kept := (set l | l in labels) + if lm.Open? then lm.own else {};
      Applied(n, TakenAway(lm, owned, labels)) == n.(labels := n.labels - ((set l | l in owned) - kept))
    decreases |owned|
  {
    var kept := (set l | l in labels) + if lm.Open? then lm.own else {};
    if owned == [] {
      assert n.labels - ((set l | l in owned) - kept) == n.labels;
    } else {
      var next := if owned[0] in kept then n else n.(labels := n.labels - {owned[0]});
      var rest := TakenAway(lm, owned[1..], labels);
      LabelsTaken(next, lm, owned[1..], labels);
      if owned[0] in kept {
        assert TakenAway(lm, owned, labels) == rest;
      } else {
        assert TakenAway(lm, owned, labels) == [RemoveLabel(owned[0])] + rest;
        assert Applied(n, [RemoveLabel(owned[0])] + rest) == Applied(next, rest);
      }
      assert next.labels - ((set l | l in owned[1..]) - kept) == n.labels - ((set l | l in owned) - kept);
    }
  }

  /** Two writes of properties leave the labels. */
  lemma TwoSetsLeaveLabels(n: Node, a: Delta, b: Delta, labels: seq<Clause>)
    ensures exists props ::
      Applied(n, [SetProps(a), SetProps(b)] + labels) == Applied(n.(props := props), labels)
  {
    var all := [SetProps(a), SetProps(b)] + labels;
    assert all[1..] == [SetProps(b)] + labels && all[1..][1..] == labels;
    var props := Patched(Patched(n.props, a), b);
    assert Applied(n, all) == Applied(n.(props := props), labels);
  }

  /**
   * What the labels field of a step's node then reads. A closed one reads what the change gave it. An open one reads
   * that too, and what others labelled the node with, so that the labels it may take away are gone unless given; a
   * label the field does not read is as it was.
   */
  lemma LabelsComeBack(
      m: Model, json: Json, lm: LabelsModel, n: Node, edit: Edit, fields: set<string>, owned: seq<string>)
    requires lm.Closed? ==> lm.members == set l | l in owned
    ensures var before, after := n.labels, EditedNode(m, json, lm, n, edit, fields, owned).labels;
      var given := set l | l in edit(SeenOf(m, json, lm, n.props, n.labels, fields)).labels;
      && (lm.Closed? && given <= lm.members ==>
            ReadLabels(lm, after) == given && after - lm.members == before - lm.members)
      && (lm.Open? && given !! lm.own ==>
            && ReadLabels(lm, after) == (ReadLabels(lm, before) - set l | l in owned) + given
            && after * lm.own == before * lm.own)
  {
    var seen := SeenOf(m, json, lm, n.props, n.labels, fields);
    var edited := edit(seen);
    var a, b := FieldProps(m, json, ChangedFields(seen, edited.root.fields), Clear),
                BagProps(m, edited.root, ChangedBags(m.bags, seen, edited.root), n.props.Keys, Clear);
    if (set l | l in edited.labels) == seen.labels {
      TwoSetsLeaveLabels(n, a, b, []);
    } else {
      var taken := TakenAway(lm, owned, edited.labels);
      TwoSetsLeaveLabels(n, a, b, Added(edited.labels) + taken);
      var props :| EditedNode(m, json, lm, n, edit, fields, owned)
        == Applied(n.(props := props), Added(edited.labels) + taken);
      LabelsAdded(n.(props := props), edited.labels, taken);
      LabelsTaken(n.(props := props, labels := n.labels + set l | l in edited.labels), lm, owned, edited.labels);
    }
  }
}
