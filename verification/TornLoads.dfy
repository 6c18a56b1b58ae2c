/**
 * Loads that take no snapshot: one may be handed another writer's stamp with the data from before its write, so the
 * save of what `update` loaded compares the root with what was loaded (src/backend/SaveStatementBuilder.ts:252-344).
 */
module TornLoads {
  import opened Wrappers
  import opened Stamps
  import opened Graphs
  import opened Statements
  import opened Updates
  import opened Mapping
  import opened RoundTrip

  /** The labels a labels field reads: its members, where they are closed, and otherwise those not the class's own. */
  datatype LabelsModel = Closed(members: set<string>) | Open(own: set<string>)

  function ReadLabels(m: LabelsModel, labels: set<string>): set<string> {
    if m.Closed? then labels * m.members else labels - m.own
  }

  /** What a load read: properties, each as some commit left it, and labels; and so what it made an object of. */
  datatype Torn = Torn(raw: Props, labels: set<string>)

  /** A value the store can compare; any other is bound as null, which no comparison refuses. */
  predicate Comparable(v: Value) {
    v.Items? ==> forall it <- v.items :: !it.Items?
  }

  /** The fields the save compares: those the class initializes or renames, and those the loaded object holds. */
  function Compared(m: Model, torn: Torn): set<string> {
    set f | f in m.initial.Keys + (set p <- m.renamed :: p.0) + m.emptyWhenAbsent.Keys + FieldsOf(m, torn.raw)
      && f != m.idField && !Skipped(m, f)
  }

  function FieldsOf(m: Model, raw: Props): set<string> {
    set name | name in raw && LoadedField(m, name).Some? :: LoadedField(m, name).value
  }

  /** What a field's property is compared with: the value as it was read, or, of a value not read, as it is stored. */
  function ComparedWith(m: Model, json: Json, torn: Torn, field: string): Option<Value>
    requires !Loaded(m, json, torn.raw, field).Null?
  {
    var name := NameOf(m, field);
    var v := if name in torn.raw && LoadedField(m, name) == Some(field) then torn.raw[name]
             else Stored(json, Absent(m, field), field in m.packed).value;
    if Comparable(v) then Some(v) else None
  }

  /** `NOT coalesce(stored <> expected, false)`: a comparison that cannot tell is no difference. */
  predicate NotDifferent(stored: Option<Value>, expected: Option<Value>) {
    stored.None? || expected.None? || stored == expected
  }

  predicate FieldAsLoaded(m: Model, json: Json, props: Props, torn: Torn, field: string) {
    var name := NameOf(m, field);
    var stored := if name in props then Some(props[name]) else None;
    var value := Loaded(m, json, torn.raw, field);
    if value.Null? then stored.None?
    else
      && NotDifferent(stored, ComparedWith(m, json, torn, field))
      && (value != Absent(m, field) ==> stored.Some?)
  }

  /** The keys of a node a bag's check takes to be the bag's. */
  predicate OwnedKey(m: Model, b: Bag, name: string) {
    if b.flat then
      name !in Known(m) && name !in FORBIDDEN_KEYS && !(RESERVED_PREFIX <= name)
          && forall it <- m.bags :: !InNamespace(it, name)
    else b.namespace <= name
  }

  function OwnedKeys(m: Model, b: Bag, props: Props): set<string> {
    set name | name in props && OwnedKey(m, b, name)
  }

  /** The bag's entries by the names they are stored under. */
  function HeldNames(m: Model, b: Bag, raw: Props): set<string> {
    set k | k in LoadedBag(m, raw, b) :: b.namespace + k
  }

  predicate BagAsLoaded(m: Model, props: Props, torn: Torn, b: Bag) {
    && |OwnedKeys(m, b, props)| == |LoadedBag(m, torn.raw, b)|
    && forall k <- LoadedBag(m, torn.raw, b) ::
         && b.namespace + k in props
         && (Comparable(LoadedBag(m, torn.raw, b)[k]) ==> props[b.namespace + k] == LoadedBag(m, torn.raw, b)[k])
  }

  predicate LabelsAsLoaded(m: LabelsModel, labels: set<string>, torn: Torn) {
    && |ReadLabels(m, labels)| == |ReadLabels(m, torn.labels)|
    && ReadLabels(m, torn.labels) <= labels
  }

  // ---- The check is what it is for

  /** A field that passes is loaded now as it was: the check compares what a load would now give with what one gave. */
  lemma FieldAsLoadedIsSound(m: Model, json: Json, props: Props, torn: Torn, field: string)
    requires Faithful(json) && OwnName(m, field) && field !in m.transient && Fits(m, field, Absent(m, field))
    requires NameOf(m, field) in torn.raw ==> Comparable(torn.raw[NameOf(m, field)])
    requires !Absent(m, field).Null? ==> Comparable(Stored(json, Absent(m, field), field in m.packed).value)
    requires FieldAsLoaded(m, json, props, torn, field)
    ensures Loaded(m, json, props, field) == Loaded(m, json, torn.raw, field)
  {
    LoadedFromOwnName(m, json, props, field);
    LoadedFromOwnName(m, json, torn.raw, field);
    if !Absent(m, field).Null? {
      PresentIsWhatWasStored(m, json, field, Absent(m, field));
    }
  }

  /**
   * And a field loaded now as it was passes, but that a packed one is compared as text, where the node holds it: a save
   * is refused for a field only when it changed, or was packed another way.
   */
  lemma FieldAsLoadedIsExact(m: Model, json: Json, props: Props, torn: Torn, field: string)
    requires Faithful(json) && OwnName(m, field) && field !in m.transient && Fits(m, field, Absent(m, field))
    requires NameOf(m, field) in torn.raw ==> Comparable(torn.raw[NameOf(m, field)])
    requires !Absent(m, field).Null? ==> Comparable(Stored(json, Absent(m, field), field in m.packed).value)
    ensures var name, value := NameOf(m, field), Loaded(m, json, torn.raw, field);
      FieldAsLoaded(m, json, props, torn, field) <==>
        && Loaded(m, json, props, field) == value
        && (field in m.packed && name in props && !value.Null? ==>
              Some(props[name]) == ComparedWith(m, json, torn, field))
  {
    LoadedFromOwnName(m, json, props, field);
    LoadedFromOwnName(m, json, torn.raw, field);
    if FieldAsLoaded(m, json, props, torn, field) {
      FieldAsLoadedIsSound(m, json, props, torn, field);
    }
    if !Absent(m, field).Null? {
      PresentIsWhatWasStored(m, json, field, Absent(m, field));
    }
  }

  lemma HeldName(m: Model, b: Bag, raw: Props, name: string)
    requires WellDeclared(m) && b in m.bags
    ensures name in HeldNames(m, b, raw) <==> name in raw && Holds(m, b, name)
    ensures name in raw && Holds(m, b, name) ==> name in OwnedKeys(m, b, raw)
  {
    if name in raw && Holds(m, b, name) {
      HeldIsNamed(m, b, raw, name);
    }
    if name in HeldNames(m, b, raw) {
      var k :| k in LoadedBag(m, raw, b) && b.namespace + k == name;
      LoadedBagAt(m, raw, b, k);
    }
  }

  lemma HeldIsNamed(m: Model, b: Bag, raw: Props, name: string)
    requires WellDeclared(m) && b in m.bags && name in raw && Holds(m, b, name)
    ensures name in HeldNames(m, b, raw)
  {
    var k := name[|b.namespace|..];
    PlacedInBag(m, b, name);
    assert name == b.namespace + k;
    LoadedBagAt(m, raw, b, k);
  }

  lemma HeldNamesAreOwned(m: Model, b: Bag, raw: Props)
    requires WellDeclared(m) && b in m.bags
    ensures |HeldNames(m, b, raw)| == |LoadedBag(m, raw, b)|
    ensures HeldNames(m, b, raw) <= OwnedKeys(m, b, raw)
  {
    var held := LoadedBag(m, raw, b);
    assert HeldNames(m, b, raw) == set k | k in held.Keys :: b.namespace + k;
    SameSize(b.namespace, held.Keys, HeldNames(m, b, raw));
    assert |held.Keys| == |held|;
    forall name <- HeldNames(m, b, raw) ensures name in OwnedKeys(m, b, raw) {
      HeldName(m, b, raw, name);
    }
  }

  lemma {:induction false} SameSize(namespace: string, keys: set<string>, names: set<string>)
    requires names == set k | k in keys :: namespace + k
    ensures |names| == |keys|
  {
    if k :| k in keys {
      var rest := set it | it in keys - {k} :: namespace + it;
      SameSize(namespace, keys - {k}, rest);
      forall it <- keys - {k} ensures namespace + it != namespace + k {
        assert (namespace + it)[|namespace|..] == it && (namespace + k)[|namespace|..] == k;
      }
      assert names == rest + {namespace + k};
    } else {
      assert names == {};
    }
  }

  lemma SubsetOfSameSize<T>(a: set<T>, b: set<T>)
    requires a <= b
    ensures |a| == |b| <==> a == b
  {
    assert b == a + (b - a);
  }

  /**
   * A bag passes when, and only when, a load now would give it the entries it was loaded with, and the node holds no
   * key under its prefix that a load never takes.
   */
  lemma BagAsLoadedIsExact(m: Model, props: Props, torn: Torn, b: Bag)
    requires WellDeclared(m) && b in m.bags
    requires forall k <- LoadedBag(m, torn.raw, b) :: Comparable(LoadedBag(m, torn.raw, b)[k])
    ensures BagAsLoaded(m, props, torn, b)
      <==>
        && LoadedBag(m, props, b) == LoadedBag(m, torn.raw, b)
        && (b.flat || forall name <- props | b.namespace <= name :: name[|b.namespace|..] !in FORBIDDEN_KEYS)
  {
    OwnedAreHeld(m, props, b);
    BagAsLoadedIsOwned(m, props, torn, b);
  }

  /** The node holds no key of a bag that a load never takes. */
  lemma OwnedAreHeld(m: Model, props: Props, b: Bag)
    requires WellDeclared(m) && b in m.bags
    ensures OwnedKeys(m, b, props) == HeldNames(m, b, props)
       <==> b.flat || forall name <- props | b.namespace <= name :: name[|b.namespace|..] !in FORBIDDEN_KEYS
  {
    forall name <- props
      ensures name in HeldNames(m, b, props) <==> Holds(m, b, name)
      ensures name in OwnedKeys(m, b, props) <==>
        Holds(m, b, name) || (!b.flat && b.namespace <= name && name[|b.namespace|..] in FORBIDDEN_KEYS)
    {
      HeldName(m, b, props, name);
    }
    HeldNamesAreOwned(m, b, props);
    forall name <- OwnedKeys(m, b, props) - HeldNames(m, b, props)
      ensures !b.flat && b.namespace <= name && name[|b.namespace|..] in FORBIDDEN_KEYS
    {}
  }

  lemma BagAsLoadedIsOwned(m: Model, props: Props, torn: Torn, b: Bag)
    requires WellDeclared(m) && b in m.bags
    requires forall k <- LoadedBag(m, torn.raw, b) :: Comparable(LoadedBag(m, torn.raw, b)[k])
    ensures BagAsLoaded(m, props, torn, b)
       <==> LoadedBag(m, props, b) == LoadedBag(m, torn.raw, b) && OwnedKeys(m, b, props) == HeldNames(m, b, props)
  {
    HeldNamesAreOwned(m, b, props);
    HeldNamesAreOwned(m, b, torn.raw);
    var now, then' := LoadedBag(m, props, b), LoadedBag(m, torn.raw, b);
    var owned, held := OwnedKeys(m, b, props), HeldNames(m, b, torn.raw);
    if BagAsLoaded(m, props, torn, b) {
      assert held <= owned by {
        assert held <= OwnedKeys(m, b, torn.raw);
      }
      SubsetOfSameSize(held, owned);
      forall k ensures SameAt(now, then', k) {
        LoadedBagAt(m, props, b, k);
        LoadedBagAt(m, torn.raw, b, k);
        if b.namespace + k in owned {
          assert b.namespace + k in held;
        }
        if k in then' {
          assert b.namespace + k in held;
        }
        if k in now {
          HeldOwned(m, b, props, k);
        }
      }
      SameEverywhere(now, then');
    }
    if now == then' && owned == HeldNames(m, b, props) {
      forall k <- then' ensures b.namespace + k in props && props[b.namespace + k] == then'[k] {
        LoadedBagAt(m, props, b, k);
      }
    }
  }

  lemma HeldOwned(m: Model, b: Bag, props: Props, k: string)
    requires WellDeclared(m) && b in m.bags && k in LoadedBag(m, props, b)
    ensures b.namespace + k in OwnedKeys(m, b, props)
  {
    LoadedBagAt(m, props, b, k);
    PlacedInBag(m, b, b.namespace + k);
  }

  lemma LabelsAsLoadedIsExact(m: LabelsModel, labels: set<string>, torn: Torn)
    ensures LabelsAsLoaded(m, labels, torn) <==> ReadLabels(m, labels) == ReadLabels(m, torn.labels)
  {
    if ReadLabels(m, torn.labels) <= labels {
      SubsetOfSameSize(ReadLabels(m, torn.labels), ReadLabels(m, labels));
    }
  }

  /** All the save requires of the node besides the stamp. */
  predicate RootAsLoaded(m: Model, json: Json, labels: LabelsModel, n: Node, torn: Torn) {
    && (forall f <- Compared(m, torn) :: FieldAsLoaded(m, json, n.props, torn, f))
    && (forall b <- m.bags :: BagAsLoaded(m, n.props, torn, b))
    && LabelsAsLoaded(labels, n.labels, torn)
  }

  /** A torn load that can be compared: of values the store compares, into a class with names of its own. */
  ghost predicate CanCompare(m: Model, json: Json, torn: Torn) {
    && WellDeclared(m) && Faithful(json)
    && (forall f <- Compared(m, torn) :: OwnName(m, f) && Fits(m, f, Absent(m, f))
          && (!Absent(m, f).Null? ==> Comparable(Stored(json, Absent(m, f), f in m.packed).value)))
    && (forall name <- torn.raw :: Comparable(torn.raw[name]))
  }

  /**
   * A node that passes is one a load would now make the same object of, in every compared field, every bag and the
   * labels: what the change was given is what the node holds, whatever the stamp was read with.
   */
  lemma PassingIsLoadedAlike(m: Model, json: Json, labels: LabelsModel, n: Node, torn: Torn)
    requires CanCompare(m, json, torn) && RootAsLoaded(m, json, labels, n, torn)
    ensures forall f <- Compared(m, torn) :: Loaded(m, json, n.props, f) == Loaded(m, json, torn.raw, f)
    ensures forall b <- m.bags :: LoadedBag(m, n.props, b) == LoadedBag(m, torn.raw, b)
    ensures ReadLabels(labels, n.labels) == ReadLabels(labels, torn.labels)
  {
    forall f <- Compared(m, torn) ensures Loaded(m, json, n.props, f) == Loaded(m, json, torn.raw, f) {
      FieldLoadedAlike(m, json, labels, n, torn, f);
    }
    forall b <- m.bags ensures LoadedBag(m, n.props, b) == LoadedBag(m, torn.raw, b) {
      BagLoadedAlike(m, n.props, torn, b);
    }
    LabelsAsLoadedIsExact(labels, n.labels, torn);
  }

  lemma FieldLoadedAlike(m: Model, json: Json, labels: LabelsModel, n: Node, torn: Torn, f: string)
    requires CanCompare(m, json, torn) && RootAsLoaded(m, json, labels, n, torn) && f in Compared(m, torn)
    ensures Loaded(m, json, n.props, f) == Loaded(m, json, torn.raw, f)
  {
    assert f !in m.transient;
    FieldAsLoadedIsSound(m, json, n.props, torn, f);
  }

  lemma BagLoadedAlike(m: Model, props: Props, torn: Torn, b: Bag)
    requires WellDeclared(m) && b in m.bags && (forall name <- torn.raw :: Comparable(torn.raw[name]))
    requires BagAsLoaded(m, props, torn, b)
    ensures LoadedBag(m, props, b) == LoadedBag(m, torn.raw, b)
  {
    forall k <- LoadedBag(m, torn.raw, b) ensures Comparable(LoadedBag(m, torn.raw, b)[k]) {
      LoadedBagAt(m, torn.raw, b, k);
    }
    BagAsLoadedIsExact(m, props, torn, b);
  }

  /**
   * Which changes are noticed: of each field but the id that a save writes, and that the class initializes, renames or
   * gives an empty collection, or that the load found under a property.
   */
  lemma ChangedFieldIsRefused(m: Model, json: Json, labels: LabelsModel, n: Node, torn: Torn, field: string)
    requires CanCompare(m, json, torn) && field != m.idField && !Skipped(m, field)
    requires
      || field in m.initial || field in m.emptyWhenAbsent || (exists p <- m.renamed :: p.0 == field)
      || exists name <- torn.raw :: LoadedField(m, name) == Some(field)
    requires Loaded(m, json, n.props, field) != Loaded(m, json, torn.raw, field)
    ensures !RootAsLoaded(m, json, labels, n, torn)
  {
    if name :| name in torn.raw && LoadedField(m, name) == Some(field) {
      assert field in FieldsOf(m, torn.raw);
    }
    assert field in Compared(m, torn);
    if RootAsLoaded(m, json, labels, n, torn) {
      PassingIsLoadedAlike(m, json, labels, n, torn);
    }
  }

  /** A value the store cannot compare refuses no save, as long as there is one. */
  lemma IncomparableGoesUncompared(m: Model, json: Json, props: Props, torn: Torn, field: string)
    requires NameOf(m, field) in torn.raw && LoadedField(m, NameOf(m, field)) == Some(field)
    requires var v := torn.raw[NameOf(m, field)]; v.Items? && exists it <- v.items :: it.Items?
    requires NameOf(m, field) in props
    ensures FieldAsLoaded(m, json, props, torn, field)
  {
  }

  /**
   * A field the class neither initializes nor renames, and which the loaded object did not hold, is not compared: one
   * another writer added meanwhile goes unnoticed where the load did not see it.
   */
  lemma UndeclaredFieldsGoUncompared(m: Model, torn: Torn, field: string)
    requires field !in m.initial && field !in m.emptyWhenAbsent && field !in FieldsOf(m, torn.raw)
    requires forall p <- m.renamed :: p.0 != field
    ensures field !in Compared(m, torn)
  {}

  /** A class with a bag of a prefix. */
  const BAGGED := Model("id", None, [], {}, {}, {}, map[], {}, {}, map[], [Bag("meta", false, "meta.")], None)

  /**
   * A key a load never takes, under a bag's prefix: the bag of such a node does not pass, though it is loaded as it was
   * and nothing was changed.
   */
  lemma ForbiddenKeyIsRefused(json: Json, lm: LabelsModel, n: Node, v: Value)
    requires n.props == map["meta." + "__proto__" := v]
    ensures WellDeclared(BAGGED) && LoadedBag(BAGGED, n.props, BAGGED.bags[0]) == map[]
    ensures !RootAsLoaded(BAGGED, json, lm, n, Torn(n.props, n.labels))
  {
    var b, name := BAGGED.bags[0], "meta." + "__proto__";
    assert "meta."[0] != RESERVED_PREFIX[0];
    assert name[|b.namespace|..] == "__proto__" && b.namespace <= name;
    HeldName(BAGGED, b, n.props, name);
    assert LoadedBag(BAGGED, n.props, b) == map[] by {
      forall k ensures k !in LoadedBag(BAGGED, n.props, b) {
        LoadedBagAt(BAGGED, n.props, b, k);
        assert k in LoadedBag(BAGGED, n.props, b) ==> b.namespace + k == name && k == "__proto__";
      }
    }
    assert name in OwnedKeys(BAGGED, b, n.props);
    assert !BagAsLoaded(BAGGED, n.props, Torn(n.props, n.labels), b);
  }
}
