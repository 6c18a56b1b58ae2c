/**
 * What is saved is what is loaded: fields and property bags come back, each owner's properties its own.
 */
module RoundTrip {
  import opened Wrappers
  import opened Graphs
  import opened Mapping

  ghost predicate DistinctFields(o: Object) {
    && (forall i, j | 0 <= i < j < |o.fields| :: o.fields[i].0 != o.fields[j].0)
    && forall f <- o.bags :: forall i, j | 0 <= i < j < |o.bags[f]| :: o.bags[f][i].0 != o.bags[f][j].0
  }

  /** A field the class tells of: renamed, packed, defaulted, initialized, given an empty or a lowercased copy, or the
   * id or the stamp.
   */
  ghost predicate Declares(m: Model, field: string) {
    || (exists p <- m.renamed :: p.0 == field)
    || field in m.packed || field in m.defaults || field in m.emptyWhenAbsent || field in m.lowerCopied
    || field in m.initial || field == m.idField || m.stampField == Some(field)
  }

  /**
   * A field has a property to itself: no other field is stored under its name, no bag's prefix or reserved name is
   * there, and, beside a flat bag, the class tells of it.
   */
  ghost predicate OwnName(m: Model, field: string) {
    var name := NameOf(m, field);
    && (forall p <- m.renamed :: p.1 == name ==> p.0 == field)
    && !(RESERVED_PREFIX <= name) && name !in FORBIDDEN_KEYS && field !in FORBIDDEN_KEYS
    && (forall b <- m.bags :: !b.flat ==> !(b.namespace <= name))
    && ((exists b <- m.bags :: b.flat) ==> Declares(m, field))
  }

  lemma {:induction false} FoundIs(pairs: seq<(string, string)>, key: string)
    ensures Find(pairs, key).Some? <==> exists p <- pairs :: p.0 == key
    ensures Find(pairs, key).Some? ==> (key, Find(pairs, key).value) in pairs
  {
    if pairs != [] {
      FoundIs(pairs[1..], key);
      assert pairs == [pairs[0]] + pairs[1..];
    }
  }

  lemma {:induction false} FoundBackIs(pairs: seq<(string, string)>, name: string)
    ensures FindBack(pairs, name).Some? <==> exists p <- pairs :: p.1 == name
    ensures FindBack(pairs, name).Some? ==> (FindBack(pairs, name).value, name) in pairs
  {
    if pairs != [] {
      FoundBackIs(pairs[..|pairs| - 1], name);
      assert pairs == pairs[..|pairs| - 1] + [pairs[|pairs| - 1]];
    }
  }

  /** What the class tells of a field keeps its property for it: a load gives it no bag and no other field. */
  lemma OwnNameIsLoaded(m: Model, field: string)
    requires OwnName(m, field)
    ensures FieldOf(m, NameOf(m, field)) == Some(field) && PlaceOf(m, NameOf(m, field)) == AmongFields
    ensures FlatBag(m.bags).Some? ==> NameOf(m, field) in Known(m)
    ensures field !in m.transient ==> LoadedField(m, NameOf(m, field)) == Some(field)
  {
    var name := NameOf(m, field);
    FoundIs(m.renamed, field);
    FoundBackIs(m.renamed, name);
    if FlatBag(m.bags).Some? {
      assert Declares(m, field);
      if Find(m.renamed, field).Some? {
        assert (field, name) in m.renamed;
      }
    }
    assert BagOf(m.bags, name).None?;
  }

  /** And a property no field the class tells of is stored under is a flat bag's. */
  lemma UndeclaredIsFlat(m: Model, name: string)
    requires FlatBag(m.bags).Some? && !(RESERVED_PREFIX <= name) && name !in FORBIDDEN_KEYS
    requires forall b <- m.bags :: !b.flat ==> !(b.namespace <= name)
    requires name !in m.transient && name != NameOf(m, m.idField)
    requires forall p <- m.renamed :: p.1 != name
    requires name !in m.packed && name !in m.defaults && name !in m.emptyWhenAbsent && name !in m.lowerCopied
    requires name !in m.initial && m.stampField != Some(name)
    ensures PlaceOf(m, name) == InBag(FlatBag(m.bags).value.field, name) && LoadedField(m, name) == None
  {
    assert BagOf(m.bags, name).None?;
  }

  /** The model of a class as it may be declared: no namespace over another, over a field or over Drivine's own. */
  ghost predicate WellDeclared(m: Model) {
    && Admitted(m.bags)
    && (forall i, j | 0 <= i < j < |m.renamed| :: m.renamed[i].0 != m.renamed[j].0)
    && (forall i, j | 0 <= i < j < |m.bags| :: m.bags[i].field != m.bags[j].field)
    && (forall b <- m.bags | b.flat :: b.namespace == "")
    && (forall b <- m.bags | !b.flat :: !(b.namespace <= RESERVED_PREFIX) && !(RESERVED_PREFIX <= b.namespace))
  }

  /** A field holds a value of the kind the class declares it to. */
  ghost predicate Fits(m: Model, field: string, v: FieldValue) {
    var asSet := if field in m.emptyWhenAbsent then m.emptyWhenAbsent[field].SetKind? else field in m.sets;
    if asSet then !(v.Plain? && v.value.Items?) else !v.SetOf?
  }

  ghost predicate WellFormed(m: Model, o: Object) {
    && WellDeclared(m) && DistinctFields(o) && Writable(m, o)
    && (forall f <- o.fields | !Skipped(m, f.0) :: OwnName(m, f.0) && Fits(m, f.0, f.1))
    && forall b <- m.bags :: forall e <- EntriesOf(o, b) :: e.0 !in FORBIDDEN_KEYS
  }

  // ---- Fields

  lemma {:induction false} FieldPropsOnly(
      m: Model, json: Json, fields: seq<(string, FieldValue)>, policy: Policy, name: string)
    ensures name in FieldProps(m, json, fields, policy) <==>
      exists f <- fields :: !Skipped(m, f.0) && !(f.1.Null? && policy.Ignore?) && NameOf(m, f.0) == name
  {
    if fields != [] {
      var last := fields[|fields| - 1];
      assert fields == fields[..|fields| - 1] + [last];
      FieldPropsOnly(m, json, fields[..|fields| - 1], policy, name);
    }
  }

  lemma {:induction false} FieldPropsAt(m: Model, json: Json, fields: seq<(string, FieldValue)>, policy: Policy, i: nat)
    requires i < |fields| && !Skipped(m, fields[i].0) && !(fields[i].1.Null? && policy.Ignore?)
    requires forall f <- fields | !Skipped(m, f.0) :: OwnName(m, f.0)
    requires forall a, b | 0 <= a < b < |fields| :: fields[a].0 != fields[b].0
    ensures NameOf(m, fields[i].0) in FieldProps(m, json, fields, policy)
    ensures FieldProps(m, json, fields, policy)[NameOf(m, fields[i].0)]
      == Stored(json, fields[i].1, fields[i].0 in m.packed)
  {
    var last := |fields| - 1;
    if i < last {
      assert fields[..last][i] == fields[i];
      FieldPropsAt(m, json, fields[..last], policy, i);
      assert fields[i] in fields && fields[last] in fields;
      OwnNameIsLoaded(m, fields[i].0);
      if !Skipped(m, fields[last].0) {
        OwnNameIsLoaded(m, fields[last].0);
      }
    }
  }

  // ---- Bags

  /** The entries of a bag that hold a value. */
  function Given(o: Object, b: Bag): map<string, Value> {
    GivenOf(EntriesOf(o, b))
  }

  function GivenOf(entries: seq<(string, Option<Value>)>): map<string, Value> {
    if entries == [] then map[]
    else
      var given := GivenOf(entries[..|entries| - 1]);
      var (key, value) := entries[|entries| - 1];
      if value.Some? then given[key := value.value] else given
  }

  /** Whether the bag has an entry stored under the name. */
  predicate Enters(o: Object, b: Bag, name: string) {
    b.namespace <= name && name[|b.namespace|..] in Given(o, b)
  }

  /** Whether a property is one only this bag may write. */
  predicate Owns(o: Object, b: Bag, name: string) {
    Enters(o, b, name) || InNamespace(b, name)
  }

  predicate ClearsIt(b: Bag, name: string, held: set<string>, policy: Policy) {
    policy.Clear? && InNamespace(b, name) && name in held
  }

  ghost predicate Separate(bags: seq<Bag>, o: Object) {
    forall a <- bags, b <- bags, name | Owns(o, a, name) && Owns(o, b, name) :: a == b
  }

  lemma {:induction false} GivenAt(entries: seq<(string, Option<Value>)>, key: string)
    ensures key in GivenOf(entries) ==> (key, Some(GivenOf(entries)[key])) in entries
  {
    if entries != [] {
      var last := entries[|entries| - 1];
      GivenAt(entries[..|entries| - 1], key);
      if key == last.0 && last.1.Some? {
        assert last == (key, Some(GivenOf(entries)[key]));
        assert last in entries;
      }
    }
  }

  lemma {:induction false} EnteredAt(
      entries: Delta, namespace: string, given: seq<(string, Option<Value>)>, name: string)
    ensures var entered := Entered(entries, namespace, given);
      if namespace <= name && name[|namespace|..] in GivenOf(given)
      then name in entered && entered[name] == Some(GivenOf(given)[name[|namespace|..]])
      else (name in entered <==> name in entries) && (name in entries ==> entered[name] == entries[name])
  {
    if given != [] {
      var (key, _) := given[|given| - 1];
      EnteredAt(entries, namespace, given[..|given| - 1], name);
      assert (namespace + key)[|namespace|..] == key;
      if namespace <= name && name[|namespace|..] == key {
        assert name == namespace + key;
      }
    }
  }

  lemma FlatEntersOnlyItsOwn(m: Model, o: Object, b: Bag, name: string)
    requires Writable(m, o) && b in m.bags && b.flat && b.namespace == "" && Enters(o, b, name)
    ensures FlatOwns(m, o, name)
  {
    assert name[0..] == name;
    GivenAt(EntriesOf(o, b), name);
  }

  /** Only one bag may write a property. */
  lemma BagsAreSeparate(m: Model, o: Object)
    requires WellDeclared(m) && Writable(m, o)
    ensures Separate(m.bags, o)
  {
    forall a <- m.bags, b <- m.bags, name | Owns(o, a, name) && Owns(o, b, name) ensures a == b {
      if a.flat && !b.flat {
        FlatEntersOnlyItsOwn(m, o, a, name);
      } else if b.flat && !a.flat {
        FlatEntersOnlyItsOwn(m, o, b, name);
      } else if !a.flat {
        Prefixes(a.namespace, b.namespace, name);
      }
    }
  }

  /** One bag's entries written over what the bags before it wrote. */
  lemma OneBagAt(before: Delta, o: Object, b: Bag, held: set<string>, policy: Policy, name: string)
    ensures var after := Cleared(Entered(before, b.namespace, EntriesOf(o, b)), b, held, policy);
      if Enters(o, b, name) then name in after && after[name] == Some(Given(o, b)[name[|b.namespace|..]])
      else if ClearsIt(b, name, held, policy) && name !in before then name in after && after[name] == None
      else (name in after <==> name in before) && (name in before ==> after[name] == before[name])
  {
    EnteredAt(before, b.namespace, EntriesOf(o, b), name);
  }

  predicate Touches(o: Object, b: Bag, name: string, held: set<string>, policy: Policy) {
    Enters(o, b, name) || ClearsIt(b, name, held, policy)
  }

  lemma {:induction false} BagPropsAt(
      m: Model, o: Object, bags: seq<Bag>, held: set<string>, policy: Policy, name: string)
    requires Separate(bags, o) && forall i, j | 0 <= i < j < |bags| :: bags[i] != bags[j]
    ensures name in BagProps(m, o, bags, held, policy) <==> exists b <- bags :: Touches(o, b, name, held, policy)
    ensures forall b <- bags | Touches(o, b, name, held, policy) ::
      BagProps(m, o, bags, held, policy)[name] ==
        if Enters(o, b, name) then Some(Given(o, b)[name[|b.namespace|..]]) else None
  {
    if bags != [] {
      var last, rest := bags[|bags| - 1], bags[..|bags| - 1];
      assert last in bags && forall b <- rest :: b in bags;
      assert forall b <- bags :: b == last || b in rest;
      BagPropsAt(m, o, rest, held, policy, name);
      OneBagAt(BagProps(m, o, rest, held, policy), o, last, held, policy, name);
      if Touches(o, last, name, held, policy) {
        assert Owns(o, last, name);
        forall b <- rest ensures !Touches(o, b, name, held, policy) {
          assert b != last;
          assert Touches(o, b, name, held, policy) ==> Owns(o, b, name);
        }
      }
    }
  }

  /** No entry writes a property a field of the object writes, one of Drivine's own, or one another bag is read from. */
  lemma EntriesStayTheirOwn(m: Model, o: Object, held: set<string>, policy: Policy, name: string)
    requires WellFormed(m, o) && name in BagProps(m, o, m.bags, held, policy)
    ensures !(RESERVED_PREFIX <= name)
    ensures forall f <- o.fields | !Skipped(m, f.0) :: NameOf(m, f.0) != name
    ensures exists b <- m.bags :: Owns(o, b, name) && forall a <- m.bags :: a != b ==> !Owns(o, a, name)
  {
    BagsAreSeparate(m, o);
    BagPropsAt(m, o, m.bags, held, policy, name);
    var b :| b in m.bags && Touches(o, b, name, held, policy);
    assert Owns(o, b, name);
    if b.flat {
      FlatEntersOnlyItsOwn(m, o, b, name);
    } else if RESERVED_PREFIX <= name {
      Prefixes(b.namespace, RESERVED_PREFIX, name);
    }
  }

  // ---- Fields come back

  lemma LoadedFromOwnName(m: Model, json: Json, props: Props, field: string)
    requires OwnName(m, field) && field !in m.transient
    ensures Loaded(m, json, props, field) ==
      if NameOf(m, field) in props then Present(m, json, field, props[NameOf(m, field)]) else Absent(m, field)
  {
    OwnNameIsLoaded(m, field);
  }

  lemma PresentIsWhatWasStored(m: Model, json: Json, field: string, v: FieldValue)
    requires Faithful(json) && Fits(m, field, v) && !v.Null?
    ensures Present(m, json, field, Stored(json, v, field in m.packed).value) == v
  {
    if field in m.packed {
      var stored := if v.SetOf? then Items(v.items) else v.value;
      assert json.unpack(json.pack(stored)) == Some(stored);
    }
  }

  lemma SavedFieldAt(m: Model, json: Json, o: Object, node: Props, held: set<string>, policy: Policy, name: string)
    requires name !in BagProps(m, o, m.bags, held, policy)
    ensures var after, fields := SavedProps(m, json, o, node, held, policy), FieldProps(m, json, o.fields, policy);
      if name in fields then
        (name in after <==> fields[name].Some?) && (fields[name].Some? ==> after[name] == fields[name].value)
      else (name in after <==> name in node) && (name in node ==> after[name] == node[name])
  {}

  /**
   * A saved field comes back as it was. One that is null is cleared under `Clear`, and comes back as an absent one
   * does; under `Ignore` it comes back as the node held it.
   */
  lemma FieldsComeBack(m: Model, json: Json, o: Object, node: Props, held: set<string>, policy: Policy, i: nat)
    requires WellFormed(m, o) && Faithful(json)
    requires i < |o.fields| && !Skipped(m, o.fields[i].0)
    ensures Loaded(m, json, SavedProps(m, json, o, node, held, policy), o.fields[i].0) ==
      if !o.fields[i].1.Null? then o.fields[i].1
      else if policy.Clear? then Absent(m, o.fields[i].0)
      else Loaded(m, json, node, o.fields[i].0)
  {
    var (field, v) := o.fields[i];
    assert o.fields[i] in o.fields;
    LoadedFromOwnName(m, json, node, field);
    LoadedFromOwnName(m, json, SavedProps(m, json, o, node, held, policy), field);
    FieldIsSaved(m, json, o, node, held, policy, i);
    if !v.Null? {
      PresentIsWhatWasStored(m, json, field, v);
    }
  }

  lemma FieldIsSaved(m: Model, json: Json, o: Object, node: Props, held: set<string>, policy: Policy, i: nat)
    requires WellFormed(m, o)
    requires i < |o.fields| && !Skipped(m, o.fields[i].0)
    ensures var after, (field, v) := SavedProps(m, json, o, node, held, policy), o.fields[i];
      var name := NameOf(m, field);
      if !v.Null? then name in after && after[name] == Stored(json, v, field in m.packed).value
      else if policy.Clear? then name !in after
      else (name in after <==> name in node) && (name in after ==> after[name] == node[name])
  {
    var (field, v) := o.fields[i];
    var name := NameOf(m, field);
    assert name !in BagProps(m, o, m.bags, held, policy) by {
      if name in BagProps(m, o, m.bags, held, policy) {
        EntriesStayTheirOwn(m, o, held, policy, name);
      }
    }
    SavedFieldAt(m, json, o, node, held, policy, name);
    if v.Null? && policy.Ignore? {
      LeftOutIsNotWritten(m, json, o, policy, i);
    } else {
      FieldPropsAt(m, json, o.fields, policy, i);
    }
  }

  lemma LeftOutIsNotWritten(m: Model, json: Json, o: Object, policy: Policy, i: nat)
    requires WellFormed(m, o) && policy.Ignore?
    requires i < |o.fields| && !Skipped(m, o.fields[i].0) && o.fields[i].1.Null?
    ensures NameOf(m, o.fields[i].0) !in FieldProps(m, json, o.fields, policy)
  {
    var field, name := o.fields[i].0, NameOf(m, o.fields[i].0);
    FieldPropsOnly(m, json, o.fields, policy, name);
    forall f <- o.fields | !Skipped(m, f.0) && NameOf(m, f.0) == name ensures f.0 == field {
      OwnNameIsLoaded(m, f.0);
      OwnNameIsLoaded(m, field);
    }
  }

  // ---- Bags come back

  /** Whether a property is read into a bag: it is in its namespace, or, of a flat one, is no one else's. */
  ghost predicate Holds(m: Model, b: Bag, name: string) {
    if b.flat then
      && (forall it <- m.bags :: !InNamespace(it, name))
      && !(RESERVED_PREFIX <= name) && name !in Known(m) && name !in FORBIDDEN_KEYS
    else b.namespace <= name && name[|b.namespace|..] !in FORBIDDEN_KEYS
  }

  lemma PlacedInBag(m: Model, b: Bag, name: string)
    requires WellDeclared(m) && b in m.bags
    ensures PlaceOf(m, name).InBag? && PlaceOf(m, name).field == b.field <==> Holds(m, b, name)
    ensures Holds(m, b, name) ==> PlaceOf(m, name).key == name[|b.namespace|..] && b.namespace <= name
  {
    var found := BagOf(m.bags, name);
    if found.Some? && !b.flat && b.namespace <= name && found.value != b {
      Prefixes(found.value.namespace, b.namespace, name);
    }
    if FlatBag(m.bags).Some? && b.flat {
      assert FlatBag(m.bags).value == b;
    }
  }

  lemma LoadedBagAt(m: Model, props: Props, b: Bag, k: string)
    requires WellDeclared(m) && b in m.bags
    ensures k in LoadedBag(m, props, b) <==> b.namespace + k in props && Holds(m, b, b.namespace + k)
    ensures k in LoadedBag(m, props, b) ==> LoadedBag(m, props, b)[k] == props[b.namespace + k]
  {
    var name := b.namespace + k;
    assert name[|b.namespace|..] == k;
    PlacedInBag(m, b, name);
    if k in BagKeys(m, props, b) {
      var other :| other in props && PlaceOf(m, other).InBag? && PlaceOf(m, other).field == b.field
        && PlaceOf(m, other).key == k;
      PlacedInBag(m, b, other);
      assert other == b.namespace + other[|b.namespace|..];
    }
  }

  /** An entry an object holds is one its bag is read with. */
  lemma EntriesAreHeld(m: Model, o: Object, b: Bag, k: string)
    requires WellFormed(m, o) && b in m.bags && k in Given(o, b)
    ensures Holds(m, b, b.namespace + k) && Enters(o, b, b.namespace + k)
  {
    assert (b.namespace + k)[|b.namespace|..] == k;
    GivenAt(EntriesOf(o, b), k);
    if b.flat {
      FlatEntersOnlyItsOwn(m, o, b, k);
      assert b.namespace + k == k;
    }
  }

  /**
   * The entries of a bag the node held that a save leaves: all but those of a prefixed bag read first under `Clear`.
   */
  function Left(m: Model, node: Props, held: set<string>, policy: Policy, b: Bag): map<string, Value> {
    map k | k in LoadedBag(m, node, b) && !(policy.Clear? && !b.flat && b.namespace + k in held)
      :: LoadedBag(m, node, b)[k]
  }

  lemma SavedAt(m: Model, json: Json, o: Object, node: Props, held: set<string>, policy: Policy, name: string)
    ensures var after, bagged := SavedProps(m, json, o, node, held, policy), BagProps(m, o, m.bags, held, policy);
      && (name in bagged ==>
            (name in after <==> bagged[name].Some?) && (bagged[name].Some? ==> after[name] == bagged[name].value))
      && (name !in bagged && name !in FieldProps(m, json, o.fields, policy) ==>
            (name in after <==> name in node) && (name in node ==> after[name] == node[name]))
  {}

  lemma GivenIsWritten(m: Model, o: Object, held: set<string>, policy: Policy, b: Bag, k: string)
    requires WellFormed(m, o) && b in m.bags && k in Given(o, b)
    ensures var bagged := BagProps(m, o, m.bags, held, policy);
      Holds(m, b, b.namespace + k) && b.namespace + k in bagged && bagged[b.namespace + k] == Some(Given(o, b)[k])
  {
    var name := b.namespace + k;
    assert name[|b.namespace|..] == k;
    EntriesAreHeld(m, o, b, k);
    BagsAreSeparate(m, o);
    BagPropsAt(m, o, m.bags, held, policy, name);
    assert Touches(o, b, name, held, policy);
  }

  lemma BagEntryComesBack(
      m: Model, json: Json, o: Object, node: Props, held: set<string>, policy: Policy, b: Bag, k: string)
    requires WellFormed(m, o) && b in m.bags
    ensures var after := LoadedBag(m, SavedProps(m, json, o, node, held, policy), b);
      var expected := Left(m, node, held, policy, b) + Given(o, b);
      SameAt(after, expected, k)
  {
    var name := b.namespace + k;
    LoadedBagAt(m, SavedProps(m, json, o, node, held, policy), b, k);
    LoadedBagAt(m, node, b, k);
    SavedAt(m, json, o, node, held, policy, name);
    if k in Given(o, b) {
      GivenIsWritten(m, o, held, policy, b, k);
    } else if Holds(m, b, name) {
      NoOtherWrites(m, json, o, held, policy, b, k);
    }
  }

  /** A bag comes back as the entries it was given, over those a save leaves of what the node held. */
  lemma BagsComeBack(m: Model, json: Json, o: Object, node: Props, held: set<string>, policy: Policy, b: Bag)
    requires WellFormed(m, o) && b in m.bags
    ensures LoadedBag(m, SavedProps(m, json, o, node, held, policy), b) == Left(m, node, held, policy, b) + Given(o, b)
  {
    var after := LoadedBag(m, SavedProps(m, json, o, node, held, policy), b);
    var expected := Left(m, node, held, policy, b) + Given(o, b);
    forall k ensures SameAt(after, expected, k) {
      BagEntryComesBack(m, json, o, node, held, policy, b, k);
    }
    SameEverywhere(after, expected);
  }

  ghost predicate SameAt(a: map<string, Value>, b: map<string, Value>, k: string) {
    (k in a <==> k in b) && (k in a ==> a[k] == b[k])
  }

  lemma SameEverywhere(a: map<string, Value>, b: map<string, Value>)
    requires forall k :: SameAt(a, b, k)
    ensures a == b
  {
    forall k ensures k in a <==> k in b {
      assert SameAt(a, b, k);
    }
    forall k <- a ensures a[k] == b[k] {
      assert SameAt(a, b, k);
    }
  }

  /** A property read into a bag is written by no field, and by no other bag. */
  lemma NoOtherWrites(m: Model, json: Json, o: Object, held: set<string>, policy: Policy, b: Bag, k: string)
    requires WellFormed(m, o) && b in m.bags && Holds(m, b, b.namespace + k) && k !in Given(o, b)
    ensures b.namespace + k !in FieldProps(m, json, o.fields, policy)
    ensures var bagged := BagProps(m, o, m.bags, held, policy);
      if policy.Clear? && !b.flat && b.namespace + k in held
      then b.namespace + k in bagged && bagged[b.namespace + k] == None
      else b.namespace + k !in bagged
  {
    var name := b.namespace + k;
    FieldPropsOnly(m, json, o.fields, policy, name);
    NoFieldIsHeld(m, o, b, name);
    OnlyItsBagTouches(m, o, held, policy, b, k);
    BagsAreSeparate(m, o);
    BagPropsAt(m, o, m.bags, held, policy, name);
  }

  lemma NoFieldIsHeld(m: Model, o: Object, b: Bag, name: string)
    requires WellFormed(m, o) && b in m.bags && Holds(m, b, name)
    ensures forall f <- o.fields | !Skipped(m, f.0) :: NameOf(m, f.0) != name
  {
    PlacedInBag(m, b, name);
    forall f <- o.fields | !Skipped(m, f.0) ensures NameOf(m, f.0) != name {
      OwnNameIsLoaded(m, f.0);
    }
  }

  lemma OnlyItsBagTouches(m: Model, o: Object, held: set<string>, policy: Policy, b: Bag, k: string)
    requires WellFormed(m, o) && b in m.bags && Holds(m, b, b.namespace + k) && k !in Given(o, b)
    ensures forall a <- m.bags | Touches(o, a, b.namespace + k, held, policy) :: a == b
    ensures Touches(o, b, b.namespace + k, held, policy) <==> policy.Clear? && !b.flat && b.namespace + k in held
    ensures !Enters(o, b, b.namespace + k)
  {
    var name := b.namespace + k;
    assert name[|b.namespace|..] == k;
    BagsAreSeparate(m, o);
    forall a <- m.bags | Touches(o, a, name, held, policy) ensures a == b {
      if a.flat {
        FlatEntersOnlyItsOwn(m, o, a, name);
        assert !b.flat ==> InNamespace(b, name);
      } else {
        assert InNamespace(a, name);
        assert !b.flat;
        assert Owns(o, a, name) && Owns(o, b, name);
      }
    }
  }

  /** Under `Clear`, a prefixed bag whose keys were read first comes back exactly as it was given. */
  lemma ClearedBagsComeBackExactly(m: Model, json: Json, o: Object, node: Props, held: set<string>, b: Bag)
    requires WellFormed(m, o) && b in m.bags && !b.flat && node.Keys <= held
    ensures LoadedBag(m, SavedProps(m, json, o, node, held, Clear), b) == Given(o, b)
  {
    BagsComeBack(m, json, o, node, held, Clear, b);
    NothingLeft(m, node, held, b);
    OverNothing(Given(o, b));
  }

  lemma OverNothing(given: map<string, Value>)
    ensures map[] + given == given
  {}

  lemma NothingLeft(m: Model, node: Props, held: set<string>, b: Bag)
    requires WellDeclared(m) && b in m.bags && !b.flat && node.Keys <= held
    ensures Left(m, node, held, Clear, b) == map[]
  {
    forall k | k in LoadedBag(m, node, b) ensures b.namespace + k in held {
      LoadedBagAt(m, node, b, k);
    }
  }
}
