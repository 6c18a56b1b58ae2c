/**
 * Saved by its statement and loaded, an object comes back (src/backend/SaveStatementBuilder.ts:182-235 with
 * src/mapper/GraphObjectMapper.ts:143-225): what a save's root is written with is what the round trip is of.
 */
module SavedObjects {
  import opened Wrappers
  import opened Stamps
  import opened Graphs
  import opened Statements
  import opened Mapping
  import opened RoundTrip
  import opened Effects
  import SavedViews

  /** The save of an object: its fields, and then its bags. */
  ghost predicate IsSaveOf(s: Statement, m: Model, json: Json, o: Object, held: set<string>, policy: Policy) {
    && s.Save?
    && s.clauses == [SetProps(FieldProps(m, json, o.fields, policy)), SetProps(BagProps(m, o, m.bags, held, policy))]
    && (forall p <- SavedViews.AllRows(s.root, s.rows) :: p.id != s.root)
    && forall b <- s.bagged :: b.0 != s.root
  }

  lemma TwoClauses(n: Node, a: Delta, b: Delta)
    ensures Applied(n, [SetProps(a), SetProps(b)]).props == Patched(Patched(n.props, a), b)
  {
    var clauses := [SetProps(a), SetProps(b)];
    assert clauses[1..] == [SetProps(b)] && clauses[1..][1..] == [];
    var once := ClauseApplied(n, SetProps(a));
    assert Applied(ClauseApplied(once, SetProps(b)), []) == ClauseApplied(once, SetProps(b));
    assert Applied(once, [SetProps(b)]) == ClauseApplied(once, SetProps(b));
  }

  lemma SaveStores(
      g: Graph, s: Statement, offered: Stamp, m: Model, json: Json, o: Object, held: set<string>, policy: Policy)
    requires IsSaveOf(s, m, json, o, held, policy) && GoesOn(g, s)
    ensures s.root in Execute(g, s, offered).nodes
    ensures Execute(g, s, offered).nodes[s.root].props
      == SavedProps(m, json, o, SavedViews.RootFound(g, s).props, held, policy)
  {
    SavedViews.RootIsStored(g, s, offered);
    TwoClauses(SavedViews.RootFound(g, s), FieldProps(m, json, o.fields, policy), BagProps(m, o, m.bags, held, policy));
  }

  /** Of the node a save leaves, a load gives each field what was saved, and each bag its entries over what was left. */
  lemma SavedObjectComesBack(
      g: Graph, s: Statement, offered: Stamp, m: Model, json: Json, o: Object, held: set<string>, policy: Policy)
    requires IsSaveOf(s, m, json, o, held, policy) && GoesOn(g, s) && RoundTrip.WellFormed(m, o) && Faithful(json)
    ensures s.root in Execute(g, s, offered).nodes
    ensures var before, after := SavedViews.RootFound(g, s).props, Execute(g, s, offered).nodes[s.root].props;
      && (forall i | 0 <= i < |o.fields| && !Skipped(m, o.fields[i].0) ::
            Loaded(m, json, after, o.fields[i].0) ==
              if !o.fields[i].1.Null? then o.fields[i].1
              else if policy.Clear? then Absent(m, o.fields[i].0)
              else Loaded(m, json, before, o.fields[i].0))
      && forall b <- m.bags :: LoadedBag(m, after, b) == Left(m, before, held, policy, b) + Given(o, b)
  {
    SaveStores(g, s, offered, m, json, o, held, policy);
    var before := SavedViews.RootFound(g, s).props;
    var after := SavedProps(m, json, o, before, held, policy);
    forall i | 0 <= i < |o.fields| && !Skipped(m, o.fields[i].0)
      ensures Loaded(m, json, after, o.fields[i].0) ==
        if !o.fields[i].1.Null? then o.fields[i].1
        else if policy.Clear? then Absent(m, o.fields[i].0)
        else Loaded(m, json, before, o.fields[i].0)
    {
      FieldsComeBack(m, json, o, before, held, policy, i);
    }
    forall b <- m.bags ensures LoadedBag(m, after, b) == Left(m, before, held, policy, b) + Given(o, b) {
      BagsComeBack(m, json, o, before, held, policy, b);
    }
  }
}
