/**
 * Paging by keyset: the predicate that continues after a cursor (src/dsl/QueryRenderer.ts:129-182), what it selects,
 * and what the pages it gives hold together.
 */
module Keyset {
  import opened Wrappers
  import opened Graphs
  import opened Truths
  import opened Orders

  /** A term of the order: by an expression, or by the root property stored under `property`. */
  datatype RootKey = RootKey(path: seq<string>, property: string, ascending: bool, byExpression: bool,
      placesNulls: bool)

  datatype SeekValue = SeekValue(path: seq<string>, value: Value)

  type Row = Props

  // ---- The predicate

  datatype Operator = Below | AtMost | Above | AtLeast | Same

  datatype Predicate =
    | Compare(property: string, operator: Operator, value: Value)
    | NotNull(property: string)
    | Every(parts: seq<Predicate>)
    | Any(parts: seq<Predicate>)

  datatype Refusal = NoOrder | OtherCount | BothWays | ByExpression(i: nat) | PlacesNulls(i: nat) | OtherTerm(i: nat)

  datatype Rendered = Rendered(where: Predicate) | Refused(why: Refusal)

  /** The first term that no cursor continues. */
  function Unfit(keys: seq<RootKey>, seek: seq<SeekValue>, i: nat): Option<Refusal>
    requires |keys| == |seek| && i <= |keys|
    decreases |keys| - i
  {
    if i == |keys| then None
    else if keys[i].byExpression then Some(ByExpression(i))
    else if keys[i].placesNulls then Some(PlacesNulls(i))
    else if keys[i].path != seek[i].path then Some(OtherTerm(i))
    else Unfit(keys, seek, i + 1)
  }

  function Comparison(keys: seq<RootKey>, seek: seq<SeekValue>, i: nat, strict: bool): Predicate
    requires |keys| == |seek| && i < |keys|
  {
    var operator := if keys[i].ascending then (if strict then Above else AtLeast)
                    else if strict then Below else AtMost;
    Compare(keys[i].property, operator, seek[i].value)
  }

  /** The keys before `i` equal to the cursor's. */
  function Prefix(keys: seq<RootKey>, seek: seq<SeekValue>, i: nat): seq<Predicate>
    requires |keys| == |seek| && i <= |keys|
  {
    seq(i, j requires 0 <= j < i => Compare(keys[j].property, Same, seek[j].value))
  }

  function Branch(keys: seq<RootKey>, seek: seq<SeekValue>, i: nat): Predicate
    requires |keys| == |seek| && i < |keys|
  {
    Every(Prefix(keys, seek, i) + [Comparison(keys, seek, i, true)])
  }

  function Branches(keys: seq<RootKey>, seek: seq<SeekValue>): seq<Predicate>
    requires |keys| == |seek|
  {
    seq(|keys|, i requires 0 <= i < |keys| => Branch(keys, seek, i))
  }

  function Guard(keys: seq<RootKey>): seq<Predicate> {
    seq(|keys|, i requires 0 <= i < |keys| => NotNull(keys[i].property))
  }

  function KeysetOf(keys: seq<RootKey>, seek: seq<SeekValue>, nullGuard: bool): Predicate
    requires |keys| == |seek| > 0
  {
    Every(
      (if nullGuard then Guard(keys) else [])
      + (if |keys| > 1 then [Comparison(keys, seek, 0, false)] else [])
      + [if |keys| > 1 then Any(Branches(keys, seek)) else Branch(keys, seek, 0)])
  }

  function Render(keys: seq<RootKey>, seek: seq<SeekValue>, skips: bool, nullGuard: bool): Rendered {
    if keys == [] then Refused(NoOrder)
    else if |keys| != |seek| then Refused(OtherCount)
    else if skips then Refused(BothWays)
    else
      var unfit := Unfit(keys, seek, 0);
      if unfit.Some? then Refused(unfit.value) else Rendered(KeysetOf(keys, seek, nullGuard))
  }

  lemma {:induction false} UnfitIsFirst(keys: seq<RootKey>, seek: seq<SeekValue>, i: nat)
    requires |keys| == |seek| && i <= |keys|
    ensures Unfit(keys, seek, i).None? <==>
      forall j | i <= j < |keys| :: !keys[j].byExpression && !keys[j].placesNulls && keys[j].path == seek[j].path
    decreases |keys| - i
  {
    if i < |keys| {
      UnfitIsFirst(keys, seek, i + 1);
    }
  }

  /** A cursor is refused unless it has a value of each term of an order by the root's properties, in turn. */
  lemma RefusedUnlessItFits(keys: seq<RootKey>, seek: seq<SeekValue>, skips: bool, nullGuard: bool)
    ensures Render(keys, seek, skips, nullGuard).Rendered? <==>
      && keys != [] && !skips && |keys| == |seek|
      && forall j | 0 <= j < |keys| :: !keys[j].byExpression && !keys[j].placesNulls && keys[j].path == seek[j].path
  {
    if |keys| == |seek| {
      UnfitIsFirst(keys, seek, 0);
    }
  }

  // ---- What it gives of a row

  function Held(row: Row, property: string): Option<Value> {
    if property in row then Some(row[property]) else None
  }

  function Apply(operator: Operator, held: Option<Value>, value: Value): Truth {
    match operator
    case Below => Less(held, Some(value))
    case AtMost => LessOrEqual(held, Some(value))
    case Above => Less(Some(value), held)
    case AtLeast => LessOrEqual(Some(value), held)
    case Same => Equals(held, Some(value))
  }

  function Eval(p: Predicate, row: Row): Truth {
    match p
    case Compare(property, operator, value) => Apply(operator, Held(row, property), value)
    case NotNull(property) => Of(property in row)
    case Every(parts) => AllOf(seq(|parts|, i requires 0 <= i < |parts| => Eval(parts[i], row)))
    case Any(parts) => AnyOf(seq(|parts|, i requires 0 <= i < |parts| => Eval(parts[i], row)))
  }

  // ---- What it means

  /** The row's key comes after the cursor's value in the term's direction, by a comparison the engine decides. */
  predicate KeyAfter(key: RootKey, value: Value, row: Row) {
    && key.property in row
    && SameKind(row[key.property], value)
    && if key.ascending then Before(value, row[key.property]) else Before(row[key.property], value)
  }

  predicate KeyEqual(key: RootKey, value: Value, row: Row) {
    key.property in row && row[key.property] == value
  }

  /** After the cursor: at the first key that is not the cursor's. */
  predicate IsAfter(keys: seq<RootKey>, cursor: seq<Value>, row: Row)
    requires |keys| == |cursor|
  {
    exists i | 0 <= i < |keys| ::
      KeyAfter(keys[i], cursor[i], row) && forall j | 0 <= j < i :: KeyEqual(keys[j], cursor[j], row)
  }

  function ValuesOf(seek: seq<SeekValue>): seq<Value> {
    seq(|seek|, i requires 0 <= i < |seek| => seek[i].value)
  }

  predicate HoldsEvery(keys: seq<RootKey>, row: Row) {
    forall i | 0 <= i < |keys| :: keys[i].property in row
  }

  lemma EveryIsYes(parts: seq<Predicate>, row: Row)
    ensures Eval(Every(parts), row) == Yes <==> forall i | 0 <= i < |parts| :: Eval(parts[i], row) == Yes
  {
    var ts := seq(|parts|, i requires 0 <= i < |parts| => Eval(parts[i], row));
    AllOfIsYes(ts);
    assert forall i | 0 <= i < |parts| :: ts[i] == Eval(parts[i], row);
  }

  lemma AnyIsYes(parts: seq<Predicate>, row: Row)
    ensures Eval(Any(parts), row) == Yes <==> exists i | 0 <= i < |parts| :: Eval(parts[i], row) == Yes
  {
    var ts := seq(|parts|, i requires 0 <= i < |parts| => Eval(parts[i], row));
    AnyOfIsYes(ts);
    assert forall i | 0 <= i < |parts| :: ts[i] == Eval(parts[i], row);
    assert (exists i | 0 <= i < |ts| :: ts[i] == Yes) <==> exists i | 0 <= i < |parts| :: Eval(parts[i], row) == Yes;
  }

  lemma BranchIs(keys: seq<RootKey>, seek: seq<SeekValue>, row: Row, i: nat)
    requires |keys| == |seek| && i < |keys|
    ensures Eval(Branch(keys, seek, i), row) == Yes <==>
      KeyAfter(keys[i], seek[i].value, row) && forall j | 0 <= j < i :: KeyEqual(keys[j], seek[j].value, row)
  {
    var parts := Prefix(keys, seek, i) + [Comparison(keys, seek, i, true)];
    EveryIsYes(parts, row);
    assert forall j | 0 <= j < i :: parts[j] == Compare(keys[j].property, Same, seek[j].value);
    assert forall j | 0 <= j < i :: Eval(parts[j], row) == Yes <==> KeyEqual(keys[j], seek[j].value, row);
    assert parts[i] == Comparison(keys, seek, i, true);
  }

  lemma BranchesAre(keys: seq<RootKey>, seek: seq<SeekValue>, row: Row)
    requires |keys| == |seek|
    ensures Eval(Any(Branches(keys, seek)), row) == Yes <==> IsAfter(keys, ValuesOf(seek), row)
  {
    AnyIsYes(Branches(keys, seek), row);
    forall i | 0 <= i < |keys| ensures Eval(Branches(keys, seek)[i], row) == Yes <==>
      KeyAfter(keys[i], ValuesOf(seek)[i], row) && forall j | 0 <= j < i :: KeyEqual(keys[j], ValuesOf(seek)[j], row)
    {
      BranchIs(keys, seek, row, i);
    }
  }

  lemma GuardIs(keys: seq<RootKey>, row: Row)
    ensures Eval(Every(Guard(keys)), row) == Yes <==> HoldsEvery(keys, row)
  {
    EveryIsYes(Guard(keys), row);
    assert forall i | 0 <= i < |keys| :: Eval(Guard(keys)[i], row) == Of(keys[i].property in row);
  }

  /** The leading bound is redundant beside the branches. */
  lemma BoundFollows(keys: seq<RootKey>, seek: seq<SeekValue>, row: Row)
    requires |keys| == |seek| > 0 && !seek[0].value.Items? && IsAfter(keys, ValuesOf(seek), row)
    ensures Eval(Comparison(keys, seek, 0, false), row) == Yes
  {
    var i :| 0 <= i < |keys| && KeyAfter(keys[i], ValuesOf(seek)[i], row)
      && forall j | 0 <= j < i :: KeyEqual(keys[j], ValuesOf(seek)[j], row);
    if i > 0 {
      assert KeyEqual(keys[0], ValuesOf(seek)[0], row);
    }
  }

  lemma EveryIsBoth(a: seq<Predicate>, b: seq<Predicate>, row: Row)
    ensures Eval(Every(a + b), row) == Yes <==> Eval(Every(a), row) == Yes && Eval(Every(b), row) == Yes
  {
    EveryIsYes(a, row);
    EveryIsYes(b, row);
    EveryIsYes(a + b, row);
    if forall i | 0 <= i < |a + b| :: Eval((a + b)[i], row) == Yes {
      forall i | 0 <= i < |a| ensures Eval(a[i], row) == Yes {
        assert (a + b)[i] == a[i];
      }
      forall i | 0 <= i < |b| ensures Eval(b[i], row) == Yes {
        assert (a + b)[|a| + i] == b[i];
      }
    }
  }

  /** The branches and the leading bound select the rows after the cursor; the guard, of those that hold every key. */
  lemma SelectsWhatIsAfter(keys: seq<RootKey>, seek: seq<SeekValue>, nullGuard: bool, row: Row)
    requires |keys| == |seek| > 0 && !seek[0].value.Items?
    ensures Eval(KeysetOf(keys, seek, nullGuard), row) == Yes
      <==> IsAfter(keys, ValuesOf(seek), row) && (nullGuard ==> HoldsEvery(keys, row))
  {
    var guard := if nullGuard then Guard(keys) else [];
    var bound := if |keys| > 1 then [Comparison(keys, seek, 0, false)] else [];
    var branches := if |keys| > 1 then Any(Branches(keys, seek)) else Branch(keys, seek, 0);
    EveryIsBoth(guard + bound, [branches], row);
    EveryIsBoth(guard, bound, row);
    EveryIsYes([branches], row);
    EveryIsYes(bound, row);
    EveryIsYes([], row);
    GuardIs(keys, row);
    BranchesAre(keys, seek, row);
    BranchIs(keys, seek, row, 0);
    assert [branches][0] == branches && (|keys| > 1 ==> bound[0] == Comparison(keys, seek, 0, false));
    if IsAfter(keys, ValuesOf(seek), row) {
      BoundFollows(keys, seek, row);
    }
  }

  /** What an accepted cursor is rendered as selects exactly the rows after it. */
  lemma RenderedSelectsWhatIsAfter(keys: seq<RootKey>, seek: seq<SeekValue>, skips: bool, nullGuard: bool, row: Row)
    requires Render(keys, seek, skips, nullGuard).Rendered? && !seek[0].value.Items?
    ensures |keys| == |seek|
    ensures Eval(Render(keys, seek, skips, nullGuard).where, row) == Yes
      <==> IsAfter(keys, ValuesOf(seek), row) && (nullGuard ==> HoldsEvery(keys, row))
  {
    RefusedUnlessItFits(keys, seek, skips, nullGuard);
    SelectsWhatIsAfter(keys, seek, nullGuard, row);
  }

  // ---- The order

  /** The order the rows are read in: by the first key two of them differ in, in its direction. */
  predicate Precedes(keys: seq<RootKey>, a: Row, b: Row)
    requires HoldsEvery(keys, a)
  {
    keys != []
    && (KeyAfter(keys[0], a[keys[0].property], b)
        || (KeyEqual(keys[0], a[keys[0].property], b) && Precedes(keys[1..], a, b)))
  }

  /** The cursor of a row: its value of each key. */
  function SeekAt(keys: seq<RootKey>, row: Row): seq<SeekValue>
    requires HoldsEvery(keys, row)
  {
    seq(|keys|, i requires 0 <= i < |keys| => SeekValue(keys[i].path, row[keys[i].property]))
  }

  lemma AfterFirst(keys: seq<RootKey>, cursor: seq<Value>, row: Row)
    requires |keys| == |cursor| > 0
    ensures IsAfter(keys, cursor, row) <==>
      KeyAfter(keys[0], cursor[0], row) || (KeyEqual(keys[0], cursor[0], row) && IsAfter(keys[1..], cursor[1..], row))
  {
    if i :|
      && 0 < i < |keys| && KeyAfter(keys[i], cursor[i], row)
      && forall j | 0 <= j < i :: KeyEqual(keys[j], cursor[j], row)
    {
      assert KeyAfter(keys[1..][i - 1], cursor[1..][i - 1], row);
    }
    if IsAfter(keys[1..], cursor[1..], row) {
      var i :| 0 <= i < |keys[1..]| && KeyAfter(keys[1..][i], cursor[1..][i], row)
        && forall j | 0 <= j < i :: KeyEqual(keys[1..][j], cursor[1..][j], row);
      assert KeyAfter(keys[i + 1], cursor[i + 1], row);
      forall j | 0 < j < i + 1 ensures KeyEqual(keys[j], cursor[j], row) {
        assert KeyEqual(keys[1..][j - 1], cursor[1..][j - 1], row);
      }
    }
  }

  lemma {:induction false} AfterIsPrecedes(keys: seq<RootKey>, a: Row, b: Row)
    requires HoldsEvery(keys, a)
    ensures IsAfter(keys, ValuesOf(SeekAt(keys, a)), b) <==> Precedes(keys, a, b)
  {
    if keys != [] {
      AfterFirst(keys, ValuesOf(SeekAt(keys, a)), b);
      AfterIsPrecedes(keys[1..], a, b);
      assert ValuesOf(SeekAt(keys, a))[1..] == ValuesOf(SeekAt(keys[1..], a));
    }
  }

  /** Rows that hold every key, each key's values all texts or all numbers. */
  ghost predicate Comparable(keys: seq<RootKey>, rows: set<Row>) {
    forall a <- rows, b <- rows :: Alike(keys, a, b)
  }

  predicate Alike(keys: seq<RootKey>, a: Row, b: Row) {
    forall i | 0 <= i < |keys| ::
      keys[i].property in a && keys[i].property in b && SameKind(a[keys[i].property], b[keys[i].property])
  }

  /** No two rows have the same last key. */
  ghost predicate LastIsUnique(keys: seq<RootKey>, rows: set<Row>) {
    keys != [] && forall a <- rows, b <- rows ::
      Held(a, keys[|keys| - 1].property) == Held(b, keys[|keys| - 1].property) ==> a == b
  }

  lemma {:induction false} PrecedesOneWay(keys: seq<RootKey>, a: Row, b: Row)
    requires Alike(keys, a, b)
    ensures !(Precedes(keys, a, b) && Precedes(keys, b, a))
    ensures keys != [] && a[keys[|keys| - 1].property] != b[keys[|keys| - 1].property] ==>
      Precedes(keys, a, b) || Precedes(keys, b, a)
  {
    if keys != [] {
      ValuesAreOrdered(a[keys[0].property], b[keys[0].property]);
      PrecedesOneWay(keys[1..], a, b);
    }
  }

  lemma {:induction false} PrecedesGoesOn(keys: seq<RootKey>, a: Row, b: Row, c: Row)
    requires Alike(keys, a, b) && Alike(keys, b, c) && Precedes(keys, a, b) && Precedes(keys, b, c)
    ensures Precedes(keys, a, c)
  {
    var k := keys[0];
    if KeyAfter(k, a[k.property], b) && KeyAfter(k, b[k.property], c) {
      if k.ascending {
        ValuesGoOn(a[k.property], b[k.property], c[k.property]);
      } else {
        ValuesGoOn(c[k.property], b[k.property], a[k.property]);
      }
    } else if KeyEqual(k, a[k.property], b) && KeyEqual(k, b[k.property], c) {
      ValuesAreOrdered(a[k.property], b[k.property]);
      PrecedesGoesOn(keys[1..], a, b, c);
    }
  }

  // ---- Pages

  /** An order a cursor may continue: by the root's properties, which the engine places nulls of by itself. */
  predicate Continuable(keys: seq<RootKey>) {
    keys != [] && forall i | 0 <= i < |keys| :: !keys[i].byExpression && !keys[i].placesNulls
  }

  /** The rows a query selects that continues after a row, or from the start; none of one that is refused. */
  function Selected(keys: seq<RootKey>, rows: set<Row>, after: Option<Row>, nullGuard: bool): set<Row> {
    if after.None? then rows
    else if !HoldsEvery(keys, after.value) then {}
    else
      match Render(keys, SeekAt(keys, after.value), false, nullGuard)
      case Rendered(where) => set row | row in rows && Eval(where, row) == Yes
      case Refused(_) => {}
  }

  /** Those that come after it in the order. */
  function Following(keys: seq<RootKey>, rows: set<Row>, after: Option<Row>): set<Row> {
    if after.None? then rows
    else set row | row in rows && HoldsEvery(keys, after.value) && Precedes(keys, after.value, row)
  }

  /** The predicate is exactly the order: on rows that hold every key it selects what comes after the cursor. */
  lemma SelectedIsFollowing(keys: seq<RootKey>, rows: set<Row>, after: Option<Row>, nullGuard: bool)
    requires Continuable(keys) && Comparable(keys, rows) && (after.Some? ==> after.value in rows)
    ensures Selected(keys, rows, after, nullGuard) == Following(keys, rows, after)
  {
    if after.Some? {
      forall row <- rows ensures row in Selected(keys, rows, after, nullGuard)
        <==> row in Following(keys, rows, after) {
        assert Alike(keys, after.value, row);
        RefusedUnlessItFits(keys, SeekAt(keys, after.value), false, nullGuard);
        RenderedSelectsWhatIsAfter(keys, SeekAt(keys, after.value), false, nullGuard, row);
        AfterIsPrecedes(keys, after.value, row);
      }
    }
  }

  ghost predicate InOrder(keys: seq<RootKey>, list: seq<Row>) {
    && (forall i | 0 <= i < |list| :: HoldsEvery(keys, list[i]))
    && forall i, j | 0 <= i < j < |list| :: Precedes(keys, list[i], list[j])
  }

  /** As ORDER BY gives them: none before one that precedes it. Rows of equal keys may come either way. */
  ghost predicate Sorted(keys: seq<RootKey>, list: seq<Row>) {
    && (forall i | 0 <= i < |list| :: HoldsEvery(keys, list[i]))
    && (forall i, j | 0 <= i < j < |list| :: list[i] != list[j])
    && forall i, j | 0 <= i < j < |list| :: !Precedes(keys, list[j], list[i])
  }

  predicate Lists(list: seq<Row>, rows: set<Row>) {
    (forall row <- list :: row in rows) && forall row <- rows :: row in list
  }

  function Cut(list: seq<Row>, limit: nat): seq<Row> {
    if |list| < limit then list else list[..limit]
  }

  /** The rows a query gives: the first `limit` of those it selects, in the order. */
  ghost predicate IsPage(keys: seq<RootKey>, selected: set<Row>, limit: nat, page: seq<Row>) {
    exists whole: seq<Row> :: Sorted(keys, whole) && Lists(whole, selected) && page == Cut(whole, limit)
  }

  /** Pages read one after the other, each continuing after the last row of the one before, until one is short. */
  ghost predicate IsRun(
      keys: seq<RootKey>, rows: set<Row>, after: Option<Row>, nullGuard: bool, limit: nat, pages: seq<seq<Row>>)
    decreases |pages|
  {
    && pages != []
    && IsPage(keys, Selected(keys, rows, after, nullGuard), limit, pages[0])
    && if |pages[0]| < limit || pages[0] == [] then |pages| == 1
       else IsRun(keys, rows, Some(pages[0][|pages[0]| - 1]), nullGuard, limit, pages[1..])
  }

  function Flat(pages: seq<seq<Row>>): seq<Row> {
    if pages == [] then [] else pages[0] + Flat(pages[1..])
  }

  /** Only with a last key no two rows share is the order of the rows fixed. */
  lemma SortedIsInOrder(keys: seq<RootKey>, rows: set<Row>, list: seq<Row>)
    requires Comparable(keys, rows) && LastIsUnique(keys, rows) && Sorted(keys, list)
      && forall row <- list :: row in rows
    ensures InOrder(keys, list)
  {
    forall i, j | 0 <= i < j < |list| ensures Precedes(keys, list[i], list[j]) {
      assert list[i] in rows && list[j] in rows && Alike(keys, list[i], list[j]);
      PrecedesOneWay(keys, list[i], list[j]);
    }
  }

  lemma InOrderIsOnce(keys: seq<RootKey>, rows: set<Row>, list: seq<Row>)
    requires Comparable(keys, rows) && InOrder(keys, list) && forall row <- list :: row in rows
    ensures forall i, j | 0 <= i < j < |list| :: list[i] != list[j]
  {
    forall i, j | 0 <= i < j < |list| ensures list[i] != list[j] {
      assert list[i] in rows && Alike(keys, list[i], list[i]);
      PrecedesOneWay(keys, list[i], list[i]);
    }
  }

  /** The whole a page is the first rows of. */
  lemma WholeOf(keys: seq<RootKey>, rows: set<Row>, selected: set<Row>, limit: nat, page: seq<Row>)
    returns (whole: seq<Row>)
    requires Comparable(keys, rows) && LastIsUnique(keys, rows) && selected <= rows
    requires IsPage(keys, selected, limit, page)
    ensures InOrder(keys, whole) && Lists(whole, selected) && page == Cut(whole, limit)
  {
    whole :| Sorted(keys, whole) && Lists(whole, selected) && page == Cut(whole, limit);
    SortedIsInOrder(keys, rows, whole);
  }

  /** What follows the last row of a page is what the page left of the whole. */
  lemma RestFollows(keys: seq<RootKey>, rows: set<Row>, after: Option<Row>, whole: seq<Row>, limit: nat, row: Row)
    requires keys != [] && Comparable(keys, rows) && (after.Some? ==> after.value in rows)
    requires 1 <= limit <= |whole| && InOrder(keys, whole) && Lists(whole, Following(keys, rows, after))
    ensures row in Following(keys, rows, Some(whole[limit - 1])) <==> row in whole[limit..]
  {
    var last := whole[limit - 1];
    assert last in whole && last in Following(keys, rows, after) && last in rows;
    if row in Following(keys, rows, Some(last)) {
      assert Alike(keys, last, row);
      if after.Some? {
        assert Alike(keys, after.value, last);
        PrecedesGoesOn(keys, after.value, last, row);
      }
      assert row in whole;
      var i :| 0 <= i < |whole| && whole[i] == row;
      PrecedesOneWay(keys, last, row);
      assert i >= limit;
      assert whole[limit..][i - limit] == row;
    }
    if row in whole[limit..] {
      var i :| 0 <= i < |whole[limit..]| && whole[limit..][i] == row;
      assert whole[limit + i] == row && row in whole;
    }
  }

  lemma PageThenRest(keys: seq<RootKey>, whole: seq<Row>, limit: nat, rest: seq<Row>, selected: set<Row>)
    requires limit <= |whole| && InOrder(keys, whole) && InOrder(keys, rest) && Lists(whole, selected)
    requires forall row :: row in rest <==> row in whole[limit..]
    ensures InOrder(keys, whole[..limit] + rest) && Lists(whole[..limit] + rest, selected)
  {
    var all := whole[..limit] + rest;
    assert whole == whole[..limit] + whole[limit..];
    forall i, j | 0 <= i < j < |all| ensures HoldsEvery(keys, all[i]) && Precedes(keys, all[i], all[j]) {
      if j >= limit {
        assert all[j] == rest[j - limit] && all[j] in rest;
        var at :| 0 <= at < |whole[limit..]| && whole[limit..][at] == all[j];
        assert whole[limit + at] == all[j];
        if i >= limit {
          assert all[i] == rest[i - limit];
        }
      }
    }
    forall i | 0 <= i < |all| ensures HoldsEvery(keys, all[i]) {
      if i >= limit {
        assert all[i] == rest[i - limit];
      }
    }
  }

  lemma {:induction false} RunIsWhole(
      keys: seq<RootKey>, rows: set<Row>, after: Option<Row>, nullGuard: bool, limit: nat, pages: seq<seq<Row>>)
    requires Continuable(keys) && Comparable(keys, rows) && LastIsUnique(keys, rows) && limit >= 1
    requires after.Some? ==> after.value in rows
    requires IsRun(keys, rows, after, nullGuard, limit, pages)
    ensures InOrder(keys, Flat(pages)) && Lists(Flat(pages), Following(keys, rows, after))
    decreases |pages|
  {
    var selected := Following(keys, rows, after);
    SelectedIsFollowing(keys, rows, after, nullGuard);
    var whole := WholeOf(keys, rows, selected, limit, pages[0]);
    if |pages[0]| < limit {
      assert Flat(pages[1..]) == [];
      assert Flat(pages) == whole;
    } else {
      var last := whole[limit - 1];
      assert pages[0][|pages[0]| - 1] == last && last in whole;
      RunIsWhole(keys, rows, Some(last), nullGuard, limit, pages[1..]);
      forall row ensures row in Flat(pages[1..]) <==> row in whole[limit..] {
        RestFollows(keys, rows, after, whole, limit, row);
      }
      PageThenRest(keys, whole, limit, Flat(pages[1..]), selected);
    }
  }

  /** Read to the end, the pages of any limit of at least 1 hold each row once, in the order: none lost, none twice. */
  lemma PagesAreTheWholeList(keys: seq<RootKey>, rows: set<Row>, nullGuard: bool, limit: nat, pages: seq<seq<Row>>)
    requires Continuable(keys) && Comparable(keys, rows) && LastIsUnique(keys, rows) && limit >= 1
    requires IsRun(keys, rows, None, nullGuard, limit, pages)
    ensures InOrder(keys, Flat(pages)) && Lists(Flat(pages), rows)
    ensures forall i, j | 0 <= i < j < |Flat(pages)| :: Flat(pages)[i] != Flat(pages)[j]
  {
    RunIsWhole(keys, rows, None, nullGuard, limit, pages);
    InOrderIsOnce(keys, rows, Flat(pages));
  }
}
