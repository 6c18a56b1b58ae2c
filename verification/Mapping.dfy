/**
 * How an object is stored as a node's properties and read back: its fields, its property bags, and which owns what
 * (src/backend/SaveStatementBuilder.ts, src/mapper/GraphObjectMapper.ts, src/model/ModelRegistry.ts).
 */
module Mapping {
  import opened Wrappers
  import opened Graphs

  const RESERVED_PREFIX := "__drivine."
  const FORBIDDEN_KEYS := {"__proto__", "constructor", "prototype"}

  /** A field's value: none, a value stored as it is, or a set, which is stored as the list of its items. */
  datatype FieldValue = Null | Plain(value: Value) | SetOf(items: seq<Value>)

  /** A property bag: the field that holds its entries, and the namespace they are stored under; none for a flat one. */
  datatype Bag = Bag(field: string, flat: bool, namespace: string)

  datatype Kind = ArrayKind | SetKind

  /**
   * JSON text, as far as it matters here: what a value is packed into, and what text is unpacked into, if it is JSON.
   */
  datatype Json = Json(pack: Value -> string, unpack: string -> Option<Value>)

  ghost predicate Faithful(json: Json) {
    forall v :: json.unpack(json.pack(v)) == Some(v)
  }

  datatype Model = Model(
    idField: string,
    stampField: Option<string>,
    /** The fields stored under another name, each once. */
    renamed: seq<(string, string)>,
    transient: set<string>,
    packed: set<string>,
    defaults: set<string>,
    emptyWhenAbsent: map<string, Kind>,
    sets: set<string>,
    lowerCopied: set<string>,
    /** What the class initializes its fields with. */
    initial: map<string, FieldValue>,
    bags: seq<Bag>,
    labelsField: Option<string>)

  datatype Policy = Ignore | Clear

  /** An object: its fields but the bags', each once, and each bag's entries, each key once. */
  datatype Object = Object(fields: seq<(string, FieldValue)>, bags: map<string, seq<(string, Option<Value>)>>)

  // ---- Names

  function Find(pairs: seq<(string, string)>, key: string): Option<string> {
    if pairs == [] then None
    else if pairs[0].0 == key then Some(pairs[0].1)
    else Find(pairs[1..], key)
  }

  /** The field renamed to a stored name: of two, the later. */
  function FindBack(pairs: seq<(string, string)>, name: string): Option<string> {
    if pairs == [] then None
    else if pairs[|pairs| - 1].1 == name then Some(pairs[|pairs| - 1].0)
    else FindBack(pairs[..|pairs| - 1], name)
  }

  function NameOf(m: Model, field: string): string {
    var name := Find(m.renamed, field);
    if name.Some? then name.value else field
  }

  /** The field a stored property is loaded into; none where its name is that of a field stored under another. */
  function FieldOf(m: Model, name: string): Option<string> {
    var field := FindBack(m.renamed, name);
    if field.Some? then field else if Find(m.renamed, name).Some? then None else Some(name)
  }

  // ---- Saving

  /** A field a save does not write: the stamp, a transient one, a bag's or the labels'. */
  predicate Skipped(m: Model, field: string) {
    || m.stampField == Some(field)
    || field in m.transient
    || (exists b <- m.bags :: b.field == field)
    || m.labelsField == Some(field)
  }

  function Stored(json: Json, value: FieldValue, packed: bool): Option<Value> {
    match value
    case Null => None
    case Plain(v) => Some(if packed then Text(json.pack(v)) else v)
    case SetOf(items) => Some(if packed then Text(json.pack(Items(items))) else Items(items))
  }

  /** The properties an object's fields write: under `Clear`, a null one is cleared. */
  function FieldProps(m: Model, json: Json, fields: seq<(string, FieldValue)>, policy: Policy): Delta {
    if fields == [] then map[]
    else
      var (field, value) := fields[|fields| - 1];
      var props := FieldProps(m, json, fields[..|fields| - 1], policy);
      if Skipped(m, field) || (value.Null? && policy.Ignore?) then props
      else props[NameOf(m, field) := Stored(json, value, field in m.packed)]
  }

  /** The properties a flat bag leaves to the fields the class declares. */
  function Known(m: Model): set<string> {
    (set p <- m.renamed :: p.1) + m.transient + m.packed + m.defaults + m.emptyWhenAbsent.Keys
    + {NameOf(m, m.idField)} + (if m.stampField.Some? then {m.stampField.value} else {})
    + m.lowerCopied + m.initial.Keys
  }

  predicate InNamespace(b: Bag, name: string) {
    !b.flat && b.namespace <= name
  }

  /** Whether a flat bag may write the property: no field's, no other bag's, and not Drivine's own. */
  predicate FlatOwns(m: Model, o: Object, name: string) {
    && name !in Known(m)
    && (forall f <- o.fields :: !WritesName(m, f.0, name))
    && !(RESERVED_PREFIX <= name)
    && forall b <- m.bags :: !InNamespace(b, name)
  }

  predicate WritesName(m: Model, field: string, name: string) {
    field !in m.transient && !(exists b <- m.bags :: b.field == field) && m.labelsField != Some(field)
    && NameOf(m, field) == name
  }

  function EntriesOf(o: Object, b: Bag): seq<(string, Option<Value>)> {
    if b.field in o.bags then o.bags[b.field] else []
  }

  /** The entries of one bag written over those of the bags before it. */
  function Entered(entries: Delta, namespace: string, given: seq<(string, Option<Value>)>): Delta {
    if given == [] then entries
    else
      var before := Entered(entries, namespace, given[..|given| - 1]);
      var (key, value) := given[|given| - 1];
      if value.Some? then before[namespace + key := value] else before
  }

  /** Under `Clear`, null for each key the node holds in a prefixed bag's namespace that no entry has written. */
  function Cleared(entries: Delta, b: Bag, held: set<string>, policy: Policy): Delta {
    if policy.Clear? && !b.flat then
      map k | k in entries.Keys + (set h | h in held && b.namespace <= h) :: if k in entries then entries[k] else None
    else entries
  }

  function BagProps(m: Model, o: Object, bags: seq<Bag>, held: set<string>, policy: Policy): Delta {
    if bags == [] then map[]
    else
      var b := bags[|bags| - 1];
      Cleared(Entered(BagProps(m, o, bags[..|bags| - 1], held, policy), b.namespace, EntriesOf(o, b)), b, held, policy)
  }

  /** What a save refuses: an entry of a flat bag that is the property of a field or of another bag. */
  predicate Writable(m: Model, o: Object) {
    forall b <- m.bags | b.flat :: forall e <- EntriesOf(o, b) | e.1.Some? :: FlatOwns(m, o, e.0)
  }

  /**
   * The node's properties after a save: the fields', then the bags'. `held` is what a save under `Clear` read first.
   */
  function SavedProps(m: Model, json: Json, o: Object, node: Props, held: set<string>, policy: Policy): Props {
    Patched(Patched(node, FieldProps(m, json, o.fields, policy)), BagProps(m, o, m.bags, held, policy))
  }

  // ---- Loading

  /** The prefixed bag a property goes to: the first whose namespace it is in. */
  function BagOf(bags: seq<Bag>, name: string): (b: Option<Bag>)
    ensures b.Some? ==> b.value in bags && InNamespace(b.value, name)
    ensures b.None? <==> forall it <- bags :: !InNamespace(it, name)
  {
    if bags == [] then None
    else if InNamespace(bags[0], name) then Some(bags[0])
    else BagOf(bags[1..], name)
  }

  function FlatBag(bags: seq<Bag>): (b: Option<Bag>)
    ensures b.Some? ==> b.value in bags && b.value.flat
    ensures b.None? <==> forall it <- bags :: !it.flat
  {
    if bags == [] then None else if bags[0].flat then Some(bags[0]) else FlatBag(bags[1..])
  }

  /** Where a load puts a property: in a bag under a key, among the fields, or nowhere. */
  datatype Place = InBag(field: string, key: string) | AmongFields | Nowhere

  function PlaceOf(m: Model, name: string): Place {
    if m.bags == [] then AmongFields
    else
      var b := BagOf(m.bags, name);
      var key := if b.Some? then name[|b.value.namespace|..] else name;
      if key in FORBIDDEN_KEYS then Nowhere
      else if b.Some? then InBag(b.value.field, key)
      else if FlatBag(m.bags).Some? && !(RESERVED_PREFIX <= name) && name !in Known(m) then
        InBag(FlatBag(m.bags).value.field, name)
      else AmongFields
  }

  /**
   * The field a property is loaded into; none for one of Drivine's, a bag's, a transient field's or a forbidden one.
   */
  function LoadedField(m: Model, name: string): Option<string> {
    if PlaceOf(m, name) != AmongFields || RESERVED_PREFIX <= name then None
    else
      var field := FieldOf(m, name);
      if field.None? || field.value in FORBIDDEN_KEYS || field.value in m.transient then None else field
  }

  function Unpacked(json: Json, v: Value): Value {
    if v.Text? && json.unpack(v.text).Some? then json.unpack(v.text).value else v
  }

  function EmptyOf(kind: Kind): FieldValue {
    match kind
    case ArrayKind => Plain(Items([]))
    case SetKind => SetOf([])
  }

  /** A stored list as the set a field is declared to hold. */
  function AsSet(v: FieldValue): FieldValue {
    if v.Plain? && v.value.Items? then SetOf(v.value.items) else v
  }

  /** What a load gives a field of a node that holds nothing for it. */
  function Absent(m: Model, field: string): FieldValue {
    var initial := if field in m.initial then m.initial[field] else Null;
    if field in m.emptyWhenAbsent then
      if initial.Null? then EmptyOf(m.emptyWhenAbsent[field])
      else if m.emptyWhenAbsent[field].SetKind? then AsSet(initial) else initial
    else initial
  }

  /** What a load gives a field the node holds `v` for. */
  function Present(m: Model, json: Json, field: string, v: Value): FieldValue {
    var value := Plain(if field in m.packed then Unpacked(json, v) else v);
    if field in m.emptyWhenAbsent then if m.emptyWhenAbsent[field].SetKind? then AsSet(value) else value
    else if field in m.sets then AsSet(value)
    else value
  }

  /** The value a load gives a field. */
  function Loaded(m: Model, json: Json, props: Props, field: string): FieldValue {
    if NameOf(m, field) in props && LoadedField(m, NameOf(m, field)) == Some(field)
    then Present(m, json, field, props[NameOf(m, field)])
    else Absent(m, field)
  }

  /** The keys a load gives a bag entries for. */
  function BagKeys(m: Model, props: Props, b: Bag): set<string> {
    set name | name in props && PlaceOf(m, name).InBag? && PlaceOf(m, name).field == b.field :: PlaceOf(m, name).key
  }

  /** The entries a load gives a bag. */
  function LoadedBag(m: Model, props: Props, b: Bag): map<string, Value> {
    map k | k in BagKeys(m, props, b) && b.namespace + k in props :: props[b.namespace + k]
  }

  // ---- What the registry admits

  /** The bags of a class: at most one flat, which has no namespace, and no namespace within another. */
  predicate Admitted(bags: seq<Bag>) {
    && (forall i, j | 0 <= i < j < |bags| :: !(bags[i].flat && bags[j].flat))
    && forall i, j | 0 <= i < |bags| && 0 <= j < |bags| && i != j && !bags[i].flat && !bags[j].flat ::
         !(bags[i].namespace <= bags[j].namespace)
  }

  lemma Prefixes(a: string, b: string, name: string)
    requires a <= name && b <= name
    ensures a <= b || b <= a
  {
    if |a| <= |b| {
      assert b[..|a|] == name[..|a|] == a;
    } else {
      assert a[..|b|] == name[..|b|] == b;
    }
  }

  /** The check is exact: it refuses two prefixed bags when, and only when, some property would be in both. */
  lemma AdmittedIsExact(a: Bag, b: Bag)
    requires !a.flat && !b.flat
    ensures (a.namespace <= b.namespace || b.namespace <= a.namespace)
       <==> exists name: string :: InNamespace(a, name) && InNamespace(b, name)
  {
    if a.namespace <= b.namespace {
      assert InNamespace(a, b.namespace) && InNamespace(b, b.namespace);
    } else if b.namespace <= a.namespace {
      assert InNamespace(a, a.namespace) && InNamespace(b, a.namespace);
    }
    forall name: string | InNamespace(a, name) && InNamespace(b, name)
      ensures a.namespace <= b.namespace || b.namespace <= a.namespace
    {
      Prefixes(a.namespace, b.namespace, name);
    }
  }
}
