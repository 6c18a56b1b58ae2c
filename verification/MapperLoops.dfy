/**
 * The loops that write an object's properties and read them back, each against what Mapping says of it: `propsOf` and
 * `bagEntries` of src/backend/SaveStatementBuilder.ts, `takeBags` and `properties` of src/mapper/GraphObjectMapper.ts.
 */
module MapperLoops {
  import opened Wrappers
  import opened Graphs
  import opened Mapping
  import opened RoundTrip

  method PropsOf(m: Model, json: Json, fields: seq<(string, FieldValue)>, policy: Policy) returns (props: Delta)
    ensures props == FieldProps(m, json, fields, policy)
  {
    props := map[];
    for i := 0 to |fields|
      invariant props == FieldProps(m, json, fields[..i], policy)
    {
      var (field, value) := fields[i];
      assert fields[..i + 1][..i] == fields[..i];
      if Skipped(m, field) {
        continue;
      }
      if !value.Null? || policy.Clear? {
        props := props[NameOf(m, field) := Stored(json, value, field in m.packed)];
      }
    }
    assert fields[..|fields|] == fields;
  }

  function SetOfAll(names: seq<string>): set<string> {
    set h | h in names
  }

  /** Whether a bag owns what is entered in it. */
  predicate OwnsEntries(m: Model, o: Object, b: Bag) {
    !b.flat || forall e <- EntriesOf(o, b) | e.1.Some? :: FlatOwns(m, o, e.0)
  }

  lemma WritableIs(m: Model, o: Object)
    ensures Writable(m, o) <==> forall i | 0 <= i < |m.bags| :: OwnsEntries(m, o, m.bags[i])
  {
    if Writable(m, o) {
      forall i | 0 <= i < |m.bags| ensures OwnsEntries(m, o, m.bags[i]) {
        assert m.bags[i] in m.bags;
      }
    }
    if forall i | 0 <= i < |m.bags| :: OwnsEntries(m, o, m.bags[i]) {
      forall b <- m.bags ensures OwnsEntries(m, o, b) {
        var i :| 0 <= i < |m.bags| && m.bags[i] == b;
      }
    }
  }

  /** One bag's entries, written over those before; none where one may not be. */
  method Enter(m: Model, o: Object, b: Bag, before: Delta) returns (entries: Option<Delta>)
    ensures entries.Some? <==> OwnsEntries(m, o, b)
    ensures entries.Some? ==> entries.value == Entered(before, b.namespace, EntriesOf(o, b))
  {
    var given := EntriesOf(o, b);
    var written := before;
    for j := 0 to |given|
      invariant written == Entered(before, b.namespace, given[..j])
      invariant b.flat ==> forall e <- given[..j] | e.1.Some? :: FlatOwns(m, o, e.0)
    {
      var (key, value) := given[j];
      assert given[..j + 1][..j] == given[..j];
      assert given[j] in EntriesOf(o, b);
      if value.Some? && b.flat && !FlatOwns(m, o, key) {
        return None;
      }
      if value.Some? {
        written := written[b.namespace + key := value];
      }
    }
    assert given[..|given|] == given;
    return Some(written);
  }

  /** Null for each held key of a bag that the bag no longer has. */
  method ClearHeld(entered: Delta, b: Bag, held: seq<string>) returns (written: Delta)
    requires !b.flat
    ensures written == Cleared(entered, b, SetOfAll(held), Clear)
  {
    written := entered;
    for j := 0 to |held|
      invariant forall k :: k in written <==> k in entered || (k in held[..j] && b.namespace <= k)
      invariant forall k <- written :: written[k] == if k in entered then entered[k] else None
    {
      if b.namespace <= held[j] && held[j] !in written {
        written := written[held[j] := None];
      }
    }
    assert held[..|held|] == held;
  }

  /** The entries a save of an object writes for its bags; none when it refuses one. */
  method BagEntries(m: Model, o: Object, held: seq<string>, policy: Policy) returns (entries: Option<Delta>)
    ensures entries.Some? <==> Writable(m, o)
    ensures entries.Some? ==> entries.value == BagProps(m, o, m.bags, SetOfAll(held), policy)
  {
    WritableIs(m, o);
    var written: Delta := map[];
    for i := 0 to |m.bags|
      invariant written == BagProps(m, o, m.bags[..i], SetOfAll(held), policy)
      invariant forall j | 0 <= j < i :: OwnsEntries(m, o, m.bags[j])
    {
      var b := m.bags[i];
      assert m.bags[..i + 1][..i] == m.bags[..i];
      var entered := Enter(m, o, b, written);
      if entered.None? {
        return None;
      }
      written := entered.value;
      if policy.Clear? && !b.flat {
        written := ClearHeld(written, b, held);
      }
    }
    assert m.bags[..|m.bags|] == m.bags;
    return Some(written);
  }

  /** A node's properties, of which each is one entry. */
  function AsProps(source: seq<(string, Value)>): Props {
    if source == [] then map[]
    else AsProps(source[..|source| - 1])[source[|source| - 1].0 := source[|source| - 1].1]
  }

  lemma {:induction false} AsPropsHas(source: seq<(string, Value)>, name: string)
    ensures name in AsProps(source) <==> exists e <- source :: e.0 == name
  {
    if source != [] {
      AsPropsHas(source[..|source| - 1], name);
      assert source == source[..|source| - 1] + [source[|source| - 1]];
    }
  }

  lemma OneMoreHeld(m: Model, props: Props, b: Bag, name: string, v: Value)
    requires WellDeclared(m) && b in m.bags && name !in props && Holds(m, b, name) && b.namespace <= name
    ensures LoadedBag(m, props[name := v], b) == LoadedBag(m, props, b)[name[|b.namespace|..] := v]
  {
    var key := name[|b.namespace|..];
    assert b.namespace + key == name;
    var after, expected := LoadedBag(m, props[name := v], b), LoadedBag(m, props, b)[key := v];
    forall k ensures SameAt(after, expected, k) {
      LoadedBagAt(m, props[name := v], b, k);
      LoadedBagAt(m, props, b, k);
      assert (b.namespace + k)[|b.namespace|..] == k;
    }
    SameEverywhere(after, expected);
  }

  lemma OneMoreOther(m: Model, props: Props, b: Bag, name: string, v: Value)
    requires WellDeclared(m) && b in m.bags && name !in props && !Holds(m, b, name)
    ensures LoadedBag(m, props[name := v], b) == LoadedBag(m, props, b)
  {
    var after, expected := LoadedBag(m, props[name := v], b), LoadedBag(m, props, b);
    forall k ensures SameAt(after, expected, k) {
      LoadedBagAt(m, props[name := v], b, k);
      LoadedBagAt(m, props, b, k);
    }
    SameEverywhere(after, expected);
  }

  /** Adding a property to those a bag is loaded from adds its entry, if the bag holds it. */
  lemma OneMoreProperty(m: Model, props: Props, b: Bag, name: string, v: Value)
    requires WellDeclared(m) && b in m.bags && name !in props
    ensures LoadedBag(m, props[name := v], b) ==
      if PlaceOf(m, name).InBag? && PlaceOf(m, name).field == b.field
      then LoadedBag(m, props, b)[PlaceOf(m, name).key := v]
      else LoadedBag(m, props, b)
  {
    PlacedInBag(m, b, name);
    if Holds(m, b, name) {
      OneMoreHeld(m, props, b, name, v);
    } else {
      OneMoreOther(m, props, b, name, v);
    }
  }

  /** The property put where it goes. */
  function Put(bags: map<string, map<string, Value>>, place: Place, v: Value): map<string, map<string, Value>> {
    if place.InBag? && place.field in bags then bags[place.field := bags[place.field][place.key := v]] else bags
  }

  ghost predicate BagsHold(m: Model, bags: map<string, map<string, Value>>, props: Props) {
    forall b <- m.bags :: b.field in bags && bags[b.field] == LoadedBag(m, props, b)
  }

  lemma PutIsLoaded(m: Model, props: Props, bags: map<string, map<string, Value>>, name: string, v: Value)
    requires WellDeclared(m) && name !in props && BagsHold(m, bags, props)
    ensures BagsHold(m, Put(bags, PlaceOf(m, name), v), props[name := v])
  {
    forall b <- m.bags ensures b.field in Put(bags, PlaceOf(m, name), v)
      && Put(bags, PlaceOf(m, name), v)[b.field] == LoadedBag(m, props[name := v], b)
    {
      OneMoreProperty(m, props, b, name, v);
    }
  }

  function Empty(bags: seq<Bag>): map<string, map<string, Value>> {
    map b | b in bags :: b.field := map[]
  }

  lemma NothingHeld(m: Model)
    ensures BagsHold(m, Empty(m.bags), map[])
  {
    forall b <- m.bags ensures LoadedBag(m, map[], b) == map[] {}
  }

  /** The properties no bag takes. */
  function Unbagged(m: Model, source: seq<(string, Value)>): seq<(string, Value)> {
    if source == [] then []
    else
      var rest := Unbagged(m, source[..|source| - 1]);
      if PlaceOf(m, source[|source| - 1].0).AmongFields? then rest + [source[|source| - 1]] else rest
  }

  /** What is split once the first `i` properties are. */
  ghost predicate Split(
      m: Model, source: seq<(string, Value)>, i: nat, props: seq<(string, Value)>,
      bags: map<string, map<string, Value>>)
    requires i <= |source|
  {
    BagsHold(m, bags, AsProps(source[..i])) && props == Unbagged(m, source[..i])
  }

  lemma OneMoreSplit(
      m: Model, source: seq<(string, Value)>, i: nat, props: seq<(string, Value)>,
      bags: map<string, map<string, Value>>)
    requires WellDeclared(m) && Distinct(source) && i < |source| && Split(m, source, i, props, bags)
    ensures Split(m, source, i + 1, if PlaceOf(m, source[i].0).AmongFields? then props + [source[i]] else props,
                  Put(bags, PlaceOf(m, source[i].0), source[i].1))
  {
    assert source[..i + 1][..i] == source[..i];
    AsPropsHas(source[..i], source[i].0);
    PutIsLoaded(m, AsProps(source[..i]), bags, source[i].0, source[i].1);
    assert AsProps(source[..i + 1]) == AsProps(source[..i])[source[i].0 := source[i].1];
  }

  /** Splits a node's properties between its bags and its fields. */
  method TakeBags(m: Model, source: seq<(string, Value)>)
      returns (props: seq<(string, Value)>, bags: map<string, map<string, Value>>)
    requires WellDeclared(m) && Distinct(source)
    ensures BagsHold(m, bags, AsProps(source))
    ensures props == Unbagged(m, source)
  {
    if m.bags == [] {
      AllUnbagged(m, source);
      return source, map[];
    }
    props := [];
    bags := Empty(m.bags);
    NothingHeld(m);
    for i := 0 to |source|
      invariant Split(m, source, i, props, bags)
    {
      OneMoreSplit(m, source, i, props, bags);
      var place := PlaceOf(m, source[i].0);
      bags := Put(bags, place, source[i].1);
      if place.AmongFields? {
        props := props + [source[i]];
      }
    }
    assert source[..|source|] == source;
  }

  lemma {:induction false} AllUnbagged(m: Model, source: seq<(string, Value)>)
    requires m.bags == []
    ensures Unbagged(m, source) == source
  {
    if source != [] {
      AllUnbagged(m, source[..|source| - 1]);
    }
  }

  ghost predicate Distinct(source: seq<(string, Value)>) {
    forall i, j | 0 <= i < j < |source| :: source[i].0 != source[j].0
  }

  lemma {:induction false} UnbaggedAre(m: Model, source: seq<(string, Value)>, e: (string, Value))
    ensures e in Unbagged(m, source) <==> e in source && PlaceOf(m, e.0).AmongFields?
  {
    if source != [] {
      UnbaggedAre(m, source[..|source| - 1], e);
      assert source == source[..|source| - 1] + [source[|source| - 1]];
    }
  }

  lemma FieldHasOneName(m: Model, name: string, field: string)
    requires WellDeclared(m) && LoadedField(m, name) == Some(field)
    ensures NameOf(m, field) == name
  {
    var found := FindBack(m.renamed, name);
    if found.Some? {
      FoundBack(m.renamed, name);
      FindsIt(m.renamed, (field, name));
    }
  }

  lemma {:induction false} FoundBack(pairs: seq<(string, string)>, name: string)
    ensures var found := FindBack(pairs, name); found.Some? ==> (found.value, name) in pairs
  {
    if pairs != [] && pairs[|pairs| - 1].1 != name {
      FoundBack(pairs[..|pairs| - 1], name);
    } else if pairs != [] {
      assert pairs[|pairs| - 1] == (pairs[|pairs| - 1].0, name);
    }
  }

  lemma {:induction false} FindsIt(pairs: seq<(string, string)>, pair: (string, string))
    requires pair in pairs && forall i, j | 0 <= i < j < |pairs| :: pairs[i].0 != pairs[j].0
    ensures Find(pairs, pair.0) == Some(pair.1)
  {
    if pairs[0] != pair {
      var i :| 0 <= i < |pairs| && pairs[i] == pair;
      assert pairs[0].0 != pairs[i].0;
      assert pair in pairs[1..];
      FindsIt(pairs[1..], pair);
    }
  }

  /** The fields read from properties no bag takes, before the class's initializers. */
  function Read(m: Model, json: Json, props: seq<(string, Value)>): map<string, FieldValue> {
    if props == [] then map[]
    else
      var rest := Read(m, json, props[..|props| - 1]);
      var (name, value) := props[|props| - 1];
      var field := LoadedField(m, name);
      if field.None? then rest
      else rest[field.value := Plain(if field.value in m.packed then Unpacked(json, value) else value)]
  }

  method ReadFields(m: Model, json: Json, props: seq<(string, Value)>) returns (fields: map<string, FieldValue>)
    ensures fields == Read(m, json, props)
  {
    fields := map[];
    for i := 0 to |props|
      invariant fields == Read(m, json, props[..i])
    {
      var (name, value) := props[i];
      assert props[..i + 1][..i] == props[..i];
      var field := LoadedField(m, name);
      if field.None? {
        continue;
      }
      fields := fields[field.value := Plain(if field.value in m.packed then Unpacked(json, value) else value)];
    }
    assert props[..|props|] == props;
  }

  /** The fields a node's properties give an object of the class; one the object does not hold is null. */
  method Properties(m: Model, json: Json, source: seq<(string, Value)>) returns (instance: map<string, FieldValue>)
    requires WellDeclared(m) && Distinct(source)
    ensures forall f :: Held(instance, f) == Loaded(m, json, AsProps(source), f)
  {
    var props, _ := TakeBags(m, source);
    var fields := ReadFields(m, json, props);
    instance := Instance(m, fields);
    InstanceIsLoaded(m, json, source);
  }

  /** What was read, over the class's initializers, and then the collections. */
  function Instance(m: Model, fields: map<string, FieldValue>): map<string, FieldValue> {
    var over := m.initial + fields;
    map f | f in over.Keys + m.emptyWhenAbsent.Keys :: Collected(m, fields, f, Held(over, f))
  }

  lemma InstanceHolds(m: Model, fields: map<string, FieldValue>, f: string)
    ensures Held(Instance(m, fields), f) == Collected(m, fields, f, Held(m.initial + fields, f))
  {}

  lemma InstanceIsLoaded(m: Model, json: Json, source: seq<(string, Value)>)
    requires WellDeclared(m) && Distinct(source)
    ensures forall f :: Held(Instance(m, Read(m, json, Unbagged(m, source))), f) == Loaded(m, json, AsProps(source), f)
  {
    var instance := Instance(m, Read(m, json, Unbagged(m, source)));
    forall f ensures Held(instance, f) == Loaded(m, json, AsProps(source), f) {
      InstanceHolds(m, Read(m, json, Unbagged(m, source)), f);
      FieldsAreLoaded(m, json, source, f);
    }
  }

  function Held(instance: map<string, FieldValue>, field: string): FieldValue {
    if field in instance then instance[field] else Null
  }

  /** `loadCollections`, of one field. */
  function Collected(m: Model, loaded: map<string, FieldValue>, field: string, value: FieldValue): FieldValue {
    if field in m.emptyWhenAbsent then
      if value.Null? then EmptyOf(m.emptyWhenAbsent[field])
      else if m.emptyWhenAbsent[field].SetKind? then AsSet(value)
      else value
    else if field in loaded && !value.Null? && field in m.sets then AsSet(value)
    else value
  }

  lemma {:induction false} AsPropsAt(source: seq<(string, Value)>, e: (string, Value))
    requires e in source && Distinct(source)
    ensures e.0 in AsProps(source) && AsProps(source)[e.0] == e.1
  {
    var last := |source| - 1;
    var i :| 0 <= i < |source| && source[i] == e;
    if i < last {
      assert source[i].0 != source[last].0;
      assert source[..last][i] == e;
      AsPropsAt(source[..last], e);
    }
  }

  lemma {:induction false} ReadAt(m: Model, json: Json, props: seq<(string, Value)>, f: string)
    requires WellDeclared(m)
    ensures var name := NameOf(m, f);
      && (f in Read(m, json, props) <==> LoadedField(m, name) == Some(f) && exists e <- props :: e.0 == name)
      && (f in Read(m, json, props) ==>
            exists e <- props ::
              e.0 == name && Read(m, json, props)[f] == Plain(if f in m.packed then Unpacked(json, e.1) else e.1))
  {
    if props != [] {
      var last := props[|props| - 1];
      ReadAt(m, json, props[..|props| - 1], f);
      assert forall e <- props :: e == last || e in props[..|props| - 1];
      assert last in props && forall e <- props[..|props| - 1] :: e in props;
      if LoadedField(m, last.0) == Some(f) {
        FieldHasOneName(m, last.0, f);
      }
    }
  }

  /** What is read into a field is what the node holds under its stored name, where no bag takes that. */
  lemma ReadIsHeld(m: Model, json: Json, source: seq<(string, Value)>, f: string)
    requires WellDeclared(m) && Distinct(source)
    ensures var fields, name := Read(m, json, Unbagged(m, source)), NameOf(m, f);
      && (f in fields <==> name in AsProps(source) && LoadedField(m, name) == Some(f))
      && (f in fields ==>
            fields[f] == Plain(if f in m.packed then Unpacked(json, AsProps(source)[name]) else AsProps(source)[name]))
  {
    var name, props := NameOf(m, f), Unbagged(m, source);
    AsPropsHas(source, name);
    ReadAt(m, json, props, f);
    if f in Read(m, json, props) {
      var e :| e in props && e.0 == name
        && Read(m, json, props)[f] == Plain(if f in m.packed then Unpacked(json, e.1) else e.1);
      UnbaggedAre(m, source, e);
      AsPropsAt(source, e);
    } else if name in AsProps(source) && LoadedField(m, name) == Some(f) {
      var e :| e in source && e.0 == name;
      UnbaggedAre(m, source, e);
    }
  }

  lemma FieldsAreLoaded(m: Model, json: Json, source: seq<(string, Value)>, f: string)
    requires WellDeclared(m) && Distinct(source)
    ensures var fields := Read(m, json, Unbagged(m, source));
      Collected(m, fields, f, Held(m.initial + fields, f)) == Loaded(m, json, AsProps(source), f)
  {
    ReadIsHeld(m, json, source, f);
  }
}
