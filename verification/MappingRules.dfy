/**
 * The rules of the mapping, each told of a class as it is declared: which fields a save writes and a load reads, what a
 * bag may hold, and which bags a class may have (src/backend/SaveStatementBuilder.ts:749-879,
 * src/mapper/GraphObjectMapper.ts:25-37, 143-225, src/model/ModelRegistry.ts:503-526).
 */
module MappingRules {
  import opened Wrappers
  import opened Graphs
  import opened Mapping
  import opened RoundTrip

  // ---- Fields

  /**
   * A field's property is written unless it is the stamp's, a transient one's, a bag's or the labels', or left null.
   */
  lemma WrittenAre(m: Model, json: Json, fields: seq<(string, FieldValue)>, policy: Policy, name: string)
    ensures name in FieldProps(m, json, fields, policy) <==> exists f <- fields ::
      && NameOf(m, f.0) == name && (f.1.Null? ==> policy == Clear)
      && m.stampField != Some(f.0) && m.labelsField != Some(f.0) && f.0 !in m.transient
      && forall b <- m.bags :: b.field != f.0
  {
    FieldPropsOnly(m, json, fields, policy, name);
    forall f <- fields
      ensures Skipped(m, f.0) <==>
        || m.stampField == Some(f.0) || m.labelsField == Some(f.0) || f.0 in m.transient
        || exists b <- m.bags :: b.field == f.0
    {}
  }

  /** A property is loaded into the field stored under its name: never one of Drivine's, forbidden or transient. */
  lemma ReadAre(m: Model, name: string, field: string)
    requires forall i, j | 0 <= i < j < |m.renamed| :: m.renamed[i].0 != m.renamed[j].0
    requires LoadedField(m, name) == Some(field)
    ensures !(RESERVED_PREFIX <= name) && field !in FORBIDDEN_KEYS && field !in m.transient
    ensures (field, name) in m.renamed || (field == name && forall p <- m.renamed :: p.0 != name && p.1 != name)
  {
    FoundBackIs(m.renamed, name);
    FoundIs(m.renamed, name);
  }

  /** What is stored of a packed field is text, of any other its value, a set as the list of its items. */
  lemma PackedIsText(json: Json, v: FieldValue)
    ensures Stored(json, v, true).None? <==> v.Null?
    ensures !v.Null? ==> Stored(json, v, true).value.Text?
    ensures Stored(json, v, false) ==
      match v case Null => None case Plain(value) => Some(value) case SetOf(items) => Some(Items(items))
  {}

  /** What a load gives a field of a node without its property, as the class tells of the field. */
  lemma AbsentIsAsInitialized(m: Model, json: Json, props: Props, field: string)
    requires NameOf(m, field) !in props
    ensures field !in m.emptyWhenAbsent ==>
      Loaded(m, json, props, field) == if field in m.initial then m.initial[field] else Null
    ensures field in m.emptyWhenAbsent && (field in m.initial ==> m.initial[field].Null?) ==>
      Loaded(m, json, props, field) == if m.emptyWhenAbsent[field].SetKind? then SetOf([]) else Plain(Items([]))
    ensures field in m.emptyWhenAbsent && field in m.initial && m.initial[field].Plain? ==>
      Loaded(m, json, props, field) ==
        if m.emptyWhenAbsent[field].SetKind? && m.initial[field].value.Items? then SetOf(m.initial[field].value.items)
        else m.initial[field]
  {}

  // ---- Bags

  /** The entries of an object's bag are those of its field that hold a value. */
  lemma GivenAre(o: Object, b: Bag, key: string)
    requires DistinctFields(o)
    ensures key in Given(o, b) <==> b.field in o.bags && exists e <- o.bags[b.field] :: e.0 == key && e.1.Some?
    ensures key in Given(o, b) ==> b.field in o.bags && (key, Some(Given(o, b)[key])) in o.bags[b.field]
  {
    GivenAt(EntriesOf(o, b), key);
    if exists e <- EntriesOf(o, b) :: e.0 == key && e.1.Some? {
      EveryValueIsGiven(EntriesOf(o, b), key);
    }
  }

  lemma {:induction false} EveryValueIsGiven(entries: seq<(string, Option<Value>)>, key: string)
    requires forall i, j | 0 <= i < j < |entries| :: entries[i].0 != entries[j].0
    requires exists e <- entries :: e.0 == key && e.1.Some?
    ensures key in GivenOf(entries)
  {
    var last := entries[|entries| - 1];
    assert entries == entries[..|entries| - 1] + [last];
    if !(last.0 == key && last.1.Some?) {
      EveryValueIsGiven(entries[..|entries| - 1], key);
    }
  }

  /**
   * A flat bag's entry is refused exactly where a load would not give it back to the bag, or a field of the object is
   * stored there.
   */
  lemma RefusedUnlessItComesBack(m: Model, o: Object, b: Bag, name: string)
    requires WellDeclared(m) && b in m.bags && b.flat && name !in FORBIDDEN_KEYS
    ensures FlatOwns(m, o, name) <==>
      && PlaceOf(m, name) == InBag(b.field, name)
      && forall f <- o.fields | f.0 !in m.transient && m.labelsField != Some(f.0) :: NameOf(m, f.0) == name ==>
           exists it <- m.bags :: it.field == f.0
  {
    PlacedInBag(m, b, name);
    forall f <- o.fields
      ensures WritesName(m, f.0, name) <==>
        && f.0 !in m.transient && m.labelsField != Some(f.0) && NameOf(m, f.0) == name
        && !exists it <- m.bags :: it.field == f.0
    {}
  }

  /** A property under a transient field's name is no flat bag's, and no field's. */
  lemma TransientIsDropped(m: Model, name: string)
    requires name in m.transient && forall b <- m.bags :: !b.flat ==> !(b.namespace <= name)
    requires forall p <- m.renamed :: p.0 != name && p.1 != name
    ensures !PlaceOf(m, name).InBag? && LoadedField(m, name) == None
  {
    assert BagOf(m.bags, name).None?;
    FoundBackIs(m.renamed, name);
    FoundIs(m.renamed, name);
  }

  predicate Begins(name: string, namespace: string) {
    namespace <= name
  }

  /** A class's bags are admitted if and only if one at most is flat, and no property is in two prefixed ones. */
  lemma AdmittedAreApart(bags: seq<Bag>)
    ensures Admitted(bags) <==> forall i, j | 0 <= i < |bags| && 0 <= j < |bags| && i != j ::
      && !(bags[i].flat && bags[j].flat)
      && (!bags[i].flat && !bags[j].flat ==>
            forall name :: !(Begins(name, bags[i].namespace) && Begins(name, bags[j].namespace)))
  {
    forall i, j | 0 <= i < |bags| && 0 <= j < |bags| && i != j && !bags[i].flat && !bags[j].flat
      ensures (bags[i].namespace <= bags[j].namespace || bags[j].namespace <= bags[i].namespace)
        <==> exists name :: Begins(name, bags[i].namespace) && Begins(name, bags[j].namespace)
    {
      AdmittedIsExact(bags[i], bags[j]);
      if name :| Begins(name, bags[i].namespace) && Begins(name, bags[j].namespace) {
        assert InNamespace(bags[i], name) && InNamespace(bags[j], name);
      }
      if name: string :| InNamespace(bags[i], name) && InNamespace(bags[j], name) {
        assert Begins(name, bags[i].namespace) && Begins(name, bags[j].namespace);
      }
    }
  }
}
