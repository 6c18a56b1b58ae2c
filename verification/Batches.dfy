/**
 * The statements of a saveAll (src/manager/StatelessGraphObjectManager.ts:166-208, 652-681): fragments grouped by
 * class, the classes in the order of their names and the rows of each in the order of their ids, and split into chunks.
 */
module Batches {
  import opened Orders

  /**
   * An object of a batch: its class's name, its id as text, which object it is, and whether it is a statement of its
   * own, as a view is, or a fragment with a property bag or labels.
   */
  datatype Item = Item(name: string, id: string, which: nat, alone: bool)

  /** The fragments of one class. */
  datatype Group = Group(name: string, objects: seq<Item>)

  function Rows(groups: seq<Group>): seq<Item> {
    if groups == [] then [] else Rows(groups[..|groups| - 1]) + groups[|groups| - 1].objects
  }

  function ChunkRows(chunks: seq<seq<Group>>): seq<Item> {
    if chunks == [] then [] else ChunkRows(chunks[..|chunks| - 1]) + Rows(chunks[|chunks| - 1])
  }

  // ---- A stable sort by a text

  function Insert<T>(list: seq<T>, x: T, key: T -> string): seq<T> {
    if list == [] then [x]
    else
      var last := |list| - 1;
      if TextBefore(key(x), key(list[last])) then Insert(list[..last], x, key) + [list[last]] else list + [x]
  }

  function SortBy<T>(list: seq<T>, key: T -> string): seq<T> {
    if list == [] then [] else Insert(SortBy(list[..|list| - 1], key), list[|list| - 1], key)
  }

  /** None before one whose text comes before its own. */
  predicate SortedBy<T>(list: seq<T>, key: T -> string) {
    forall i, j | 0 <= i < j < |list| :: !TextBefore(key(list[j]), key(list[i]))
  }

  function OfKey<T>(list: seq<T>, key: T -> string, k: string): seq<T> {
    if list == [] then []
    else OfKey(list[..|list| - 1], key, k) + if key(list[|list| - 1]) == k then [list[|list| - 1]] else []
  }

  lemma NotBeforeGoesOn(a: string, b: string, c: string)
    requires !TextBefore(b, a) && !TextBefore(c, b)
    ensures !TextBefore(c, a)
  {
    TextsAreOrdered(a, b);
    TextsAreOrdered(b, c);
    if TextBefore(a, b) && TextBefore(b, c) {
      TextsGoOn(a, b, c);
      TextsAreOrdered(a, c);
    }
  }

  lemma {:induction false} InsertKeepsAll<T>(list: seq<T>, x: T, key: T -> string)
    ensures multiset(Insert(list, x, key)) == multiset(list) + multiset{x}
    decreases |list|
  {
    if list != [] {
      var last := |list| - 1;
      InsertKeepsAll(list[..last], x, key);
      assert list == list[..last] + [list[last]];
    }
  }

  lemma SortedMore<T>(list: seq<T>, x: T, key: T -> string)
    requires SortedBy(list, key) && forall i | 0 <= i < |list| :: !TextBefore(key(x), key(list[i]))
    ensures SortedBy(list + [x], key)
  {
  }

  lemma {:induction false} InsertIsSorted<T>(list: seq<T>, x: T, key: T -> string)
    requires SortedBy(list, key)
    ensures SortedBy(Insert(list, x, key), key)
    decreases |list|
  {
    if list != [] {
      var last := |list| - 1;
      var y := list[last];
      TextsAreOrdered(key(x), key(y));
      if TextBefore(key(x), key(y)) {
        InsertIsSorted(list[..last], x, key);
        var before := Insert(list[..last], x, key);
        InsertKeepsAll(list[..last], x, key);
        forall i | 0 <= i < |before| ensures !TextBefore(key(y), key(before[i])) {
          assert before[i] in multiset(list[..last]) + multiset{x};
        }
        SortedMore(before, y, key);
      } else {
        forall i | 0 <= i < |list| ensures !TextBefore(key(x), key(list[i])) {
          if i < last {
            NotBeforeGoesOn(key(list[i]), key(y), key(x));
          }
        }
        SortedMore(list, x, key);
      }
    }
  }

  lemma OfKeyMore<T>(list: seq<T>, x: T, key: T -> string, k: string)
    ensures OfKey(list + [x], key, k) == OfKey(list, key, k) + if key(x) == k then [x] else []
  {
    assert (list + [x])[..|list|] == list;
  }

  lemma {:induction false} InsertIsLastOfKey<T>(list: seq<T>, x: T, key: T -> string, k: string)
    ensures OfKey(Insert(list, x, key), key, k) == OfKey(list, key, k) + if key(x) == k then [x] else []
    decreases |list|
  {
    if list == [] || !TextBefore(key(x), key(list[|list| - 1])) {
      OfKeyMore(list, x, key, k);
      assert list == [] ==> list + [x] == [x];
    } else {
      var last := |list| - 1;
      InsertIsLastOfKey(list[..last], x, key, k);
      OfKeyMore(Insert(list[..last], x, key), list[last], key, k);
      TextsAreOrdered(key(x), key(list[last]));
      OneOfTwo(OfKey(list[..last], key, k),
        if key(x) == k then [x] else [], if key(list[last]) == k then [list[last]] else []);
    }
  }

  lemma OneOfTwo<T>(list: seq<T>, a: seq<T>, b: seq<T>)
    requires a == [] || b == []
    ensures list + a + b == list + b + a
  {
    assert list + a + b == if a == [] then list + b else list + a;
  }

  lemma {:induction false} SortIsStable<T>(list: seq<T>, key: T -> string)
    ensures SortedBy(SortBy(list, key), key)
    ensures multiset(SortBy(list, key)) == multiset(list)
    ensures forall k :: OfKey(SortBy(list, key), key, k) == OfKey(list, key, k)
    decreases |list|
  {
    if list != [] {
      var last := |list| - 1;
      SortIsStable(list[..last], key);
      InsertIsSorted(SortBy(list[..last], key), list[last], key);
      InsertKeepsAll(SortBy(list[..last], key), list[last], key);
      forall k ensures OfKey(SortBy(list, key), key, k) == OfKey(list, key, k) {
        InsertIsLastOfKey(SortBy(list[..last], key), list[last], key, k);
      }
      assert list == list[..last] + [list[last]];
    }
  }

  // ---- The order of the locks

  function NameOf(): Group -> string {
    (g: Group) => g.name
  }

  function IdOf(): Item -> string {
    (it: Item) => it.id
  }

  function Ordered(g: Group): Group {
    Group(g.name, SortBy(g.objects, IdOf()))
  }

  function EachOrdered(groups: seq<Group>): (r: seq<Group>)
    ensures |r| == |groups| && forall i | 0 <= i < |r| :: r[i] == Ordered(groups[i])
  {
    if groups == [] then [] else EachOrdered(groups[..|groups| - 1]) + [Ordered(groups[|groups| - 1])]
  }

  function LockOrdered(groups: seq<Group>): seq<Group> {
    EachOrdered(SortBy(groups, NameOf()))
  }

  /** What the rows of a batch are in the order of. */
  datatype Key = Key(name: string, id: string)

  function KeyOf(row: Item): Key {
    Key(row.name, row.id)
  }

  predicate Precedes(a: Key, b: Key) {
    TextBefore(a.name, b.name) || (a.name == b.name && TextBefore(a.id, b.id))
  }

  predicate InLockOrder(rows: seq<Item>) {
    forall i, j | 0 <= i < j < |rows| :: !Precedes(KeyOf(rows[j]), KeyOf(rows[i]))
  }

  predicate OfItsClass(g: Group) {
    forall i | 0 <= i < |g.objects| :: g.objects[i].name == g.name
  }

  // ---- Chunks

  predicate Fits(chunk: seq<Group>, size: nat) {
    1 <= |Rows(chunk)| <= size
  }

  predicate OfTheirClasses(groups: seq<Group>) {
    forall i {:trigger OfItsClass(groups[i])} | 0 <= i < |groups| :: OfItsClass(groups[i])
  }

  lemma RowsMore(groups: seq<Group>, g: Group)
    ensures Rows(groups + [g]) == Rows(groups) + g.objects
  {
    assert (groups + [g])[..|groups|] == groups;
  }

  lemma ChunkRowsMore(chunks: seq<seq<Group>>, chunk: seq<Group>)
    ensures ChunkRows(chunks + [chunk]) == ChunkRows(chunks) + Rows(chunk)
  {
    assert (chunks + [chunk])[..|chunks|] == chunks;
  }

  predicate AllFit(chunks: seq<seq<Group>>, size: nat) {
    forall i {:trigger Fits(chunks[i], size)} | 0 <= i < |chunks| :: Fits(chunks[i], size)
  }

  predicate AllOfTheirClasses(chunks: seq<seq<Group>>) {
    forall i {:trigger OfTheirClasses(chunks[i])} | 0 <= i < |chunks| :: OfTheirClasses(chunks[i])
  }

  /** What the loop has cut so far, `done`: full chunks, and the one it is filling. */
  predicate Cut(chunks: seq<seq<Group>>, current: seq<Group>, rows: int, size: nat, done: seq<Item>) {
    && ChunkRows(chunks) + Rows(current) == done
    && rows == |Rows(current)| <= size && (current == [] <==> rows == 0)
    && AllFit(chunks, size) && AllOfTheirClasses(chunks) && OfTheirClasses(current)
  }

  /** A chunk had no room for the part the next one begins with. */
  predicate NoRoom(chunks: seq<seq<Group>>, i: nat, size: nat)
    requires i + 1 < |chunks|
  {
    chunks[i + 1] != [] && |Rows(chunks[i])| + |chunks[i + 1][0].objects| > size
  }

  predicate AllFull(chunks: seq<seq<Group>>, size: nat) {
    forall i: nat {:trigger NoRoom(chunks, i, size)} | i + 1 < |chunks| :: NoRoom(chunks, i, size)
  }

  predicate Filling(chunks: seq<seq<Group>>, current: seq<Group>, size: nat) {
    if current == [] then chunks == [] else AllFull(chunks + [current], size)
  }

  lemma FillingGoesOn(chunks: seq<seq<Group>>, current: seq<Group>, size: nat, more: Group)
    requires Filling(chunks, current, size)
    ensures if |Rows(current)| + |more.objects| > size && current != []
      then Filling(chunks + [current], [more], size)
      else Filling(chunks, current + [more], size)
  {
    if |Rows(current)| + |more.objects| > size && current != [] {
      var all := chunks + [current] + [[more]];
      forall i: nat | i + 1 < |all| ensures NoRoom(all, i, size) {
        if i + 1 < |chunks + [current]| {
          assert NoRoom(chunks + [current], i, size);
        }
      }
    } else {
      var all := chunks + [current + [more]];
      forall i: nat | i + 1 < |all| ensures NoRoom(all, i, size) {
        assert NoRoom(chunks + [current], i, size);
        assert i + 1 == |chunks| ==> all[i + 1][0] == current[0];
      }
    }
  }

  lemma CutMore(chunks: seq<seq<Group>>, current: seq<Group>, rows: int, size: nat, done: seq<Item>, more: Group)
    requires Cut(chunks, current, rows, size, done)
    requires OfItsClass(more) && 1 <= |more.objects| && rows + |more.objects| <= size
    ensures Cut(chunks, current + [more], rows + |more.objects|, size, done + more.objects)
  {
    RowsMore(current, more);
    assert ChunkRows(chunks) + (Rows(current) + more.objects) == (ChunkRows(chunks) + Rows(current)) + more.objects;
  }

  lemma CutOff(chunks: seq<seq<Group>>, current: seq<Group>, rows: int, size: nat, done: seq<Item>)
    requires Cut(chunks, current, rows, size, done) && current != []
    ensures Cut(chunks + [current], [], 0, size, done)
  {
    ChunkRowsMore(chunks, current);
    assert Rows([]) == [] && done + [] == done;
  }

  lemma SliceOfClass(g: Group, from: nat, to: nat)
    requires OfItsClass(g) && from <= to <= |g.objects|
    ensures OfItsClass(Group(g.name, g.objects[from..to]))
    ensures g.objects[..to] == g.objects[..from] + g.objects[from..to]
  {
  }

  function Min(a: nat, b: nat): nat {
    if a < b then a else b
  }

  lemma CutGoesOn(chunks: seq<seq<Group>>, current: seq<Group>, rows: int, size: nat, done: seq<Item>, more: Group)
    requires Cut(chunks, current, rows, size, done) && OfItsClass(more) && 1 <= |more.objects| <= size
    ensures if rows + |more.objects| > size && current != []
      then Cut(chunks + [current], [] + [more], 0 + |more.objects|, size, done + more.objects)
      else Cut(chunks, current + [more], rows + |more.objects|, size, done + more.objects)
  {
    if rows + |more.objects| > size && current != [] {
      CutOff(chunks, current, rows, size, done);
      CutMore(chunks + [current], [], 0, size, done, more);
    } else {
      CutMore(chunks, current, rows, size, done, more);
    }
  }

  lemma PartMore(done: seq<Item>, objects: seq<Item>, from: nat, to: nat)
    requires from <= to <= |objects|
    ensures done + objects[..to] == done + objects[..from] + objects[from..to]
  {
  }

  /** What is put next begins a chunk where there is no room for it in the one begun. */
  method Put(more: Group, size: nat, full: seq<seq<Group>>, begun: seq<Group>, held: int, ghost done: seq<Item>)
      returns (chunks: seq<seq<Group>>, current: seq<Group>, rows: int)
    requires OfItsClass(more) && 1 <= |more.objects| <= size
    requires Cut(full, begun, held, size, done) && Filling(full, begun, size)
    ensures Cut(chunks, current, rows, size, done + more.objects) && Filling(chunks, current, size)
  {
    CutGoesOn(full, begun, held, size, done, more);
    FillingGoesOn(full, begun, size, more);
    assert [] + [more] == [more];
    chunks, current, rows := full, begun, held;
    if rows + |more.objects| > size && current != [] {
      chunks := chunks + [current];
      current := [];
      rows := 0;
    }
    current := current + [more];
    rows := rows + |more.objects|;
  }

  /** One group's rows, cut into parts of `size` and put where they fit. */
  method ChunkGroup(group: Group, size: nat, full: seq<seq<Group>>, begun: seq<Group>, held: int, ghost done: seq<Item>)
      returns (chunks: seq<seq<Group>>, current: seq<Group>, rows: int)
    requires size >= 1 && OfItsClass(group) && Cut(full, begun, held, size, done) && Filling(full, begun, size)
    ensures Cut(chunks, current, rows, size, done + group.objects) && Filling(chunks, current, size)
  {
    chunks, current, rows := full, begun, held;
    var start := 0;
    assert done + group.objects[..0] == done;
    while start < |group.objects|
      invariant 0 <= start
      invariant Cut(chunks, current, rows, size, done + group.objects[..Min(start, |group.objects|)])
      invariant Filling(chunks, current, size)
    {
      var end := Min(start + size, |group.objects|);
      SliceOfClass(group, start, end);
      PartMore(done, group.objects, start, end);
      var part := Group(group.name, group.objects[start..end]);
      chunks, current, rows := Put(part, size, chunks, current, rows, done + group.objects[..start]);
      start := start + size;
    }
    assert group.objects[..|group.objects|] == group.objects;
  }

  /**
   * The groups split so that no statement holds more than `size` rows, and none is empty: every row is kept, once and
   * in its place, with its class. A statement is ended only where what comes next does not fit.
   */
  method Chunked(groups: seq<Group>, size: nat) returns (chunks: seq<seq<Group>>)
    requires size >= 1 && OfTheirClasses(groups)
    ensures ChunkRows(chunks) == Rows(groups)
    ensures AllFit(chunks, size) && AllOfTheirClasses(chunks) && AllFull(chunks, size)
  {
    chunks := [];
    var current: seq<Group> := [];
    var rows := 0;
    for g := 0 to |groups|
      invariant Cut(chunks, current, rows, size, Rows(groups[..g])) && Filling(chunks, current, size)
    {
      assert OfItsClass(groups[g]);
      RowsMore(groups[..g], groups[g]);
      assert groups[..g + 1] == groups[..g] + [groups[g]];
      chunks, current, rows := ChunkGroup(groups[g], size, chunks, current, rows, Rows(groups[..g]));
    }
    assert groups[..|groups|] == groups;
    if current != [] {
      CutOff(chunks, current, rows, size, Rows(groups));
      chunks := chunks + [current];
    }
  }

  // ---- Objects of one class and id

  /** The rows of one class and id, as they stand: the last of them is what is written last. */
  function OfId(rows: seq<Item>, name: string, id: string): seq<Item> {
    if rows == [] then []
    else
      var last := rows[|rows| - 1];
      OfId(rows[..|rows| - 1], name, id) + if last.name == name && last.id == id then [last] else []
  }

  lemma OfIdMore(rows: seq<Item>, it: Item, name: string, id: string)
    ensures OfId(rows + [it], name, id) == OfId(rows, name, id) + if it.name == name && it.id == id then [it] else []
  {
    assert (rows + [it])[..|rows|] == rows;
  }

  lemma {:induction false} OfIdBoth(a: seq<Item>, b: seq<Item>, name: string, id: string)
    ensures OfId(a + b, name, id) == OfId(a, name, id) + OfId(b, name, id)
    decreases |b|
  {
    if b == [] {
      assert a + b == a;
    } else {
      var before, last := b[..|b| - 1], b[|b| - 1];
      OfIdBoth(a, before, name, id);
      OfIdMore(a + before, last, name, id);
      assert a + b == (a + before) + [last];
      Joined(OfId(a, name, id), OfId(before, name, id), if last.name == name && last.id == id then [last] else []);
    }
  }

  lemma Joined<T>(a: seq<T>, b: seq<T>, c: seq<T>)
    ensures (a + b) + c == a + (b + c)
  {
  }

  lemma {:induction false} OfIdOfClass(rows: seq<Item>, className: string, name: string, id: string)
    requires forall i | 0 <= i < |rows| :: rows[i].name == className
    ensures OfId(rows, name, id) == if className == name then OfKey(rows, IdOf(), id) else []
  {
    if rows != [] {
      OfIdOfClass(rows[..|rows| - 1], className, name, id);
    }
  }

  lemma RowsOfId(groups: seq<Group>, g: Group, name: string, id: string)
    ensures OfId(Rows(groups + [g]), name, id) == OfId(Rows(groups), name, id) + OfId(g.objects, name, id)
  {
    RowsMore(groups, g);
    OfIdBoth(Rows(groups), g.objects, name, id);
  }

  /** Of two groups of different classes at most one holds rows of a class and id. */
  lemma OneClassOfId(before: seq<Item>, a: Group, b: Group, name: string, id: string)
    requires OfItsClass(a) && OfItsClass(b) && a.name != b.name
    ensures before + OfId(a.objects, name, id) + OfId(b.objects, name, id)
      == before + OfId(b.objects, name, id) + OfId(a.objects, name, id)
  {
    OfIdOfClass(a.objects, a.name, name, id);
    OfIdOfClass(b.objects, b.name, name, id);
    OneOfTwo(before, OfId(a.objects, name, id), OfId(b.objects, name, id));
  }

  // ---- The batch

  /** The names of groups, each once. */
  predicate OneEach(groups: seq<Group>) {
    forall i, j | 0 <= i < j < |groups| :: groups[i].name != groups[j].name
  }

  function Fragments(objects: seq<Item>): seq<Item> {
    if objects == [] then []
    else Fragments(objects[..|objects| - 1]) + if objects[|objects| - 1].alone then [] else [objects[|objects| - 1]]
  }

  function Alone(objects: seq<Item>): seq<Item> {
    if objects == [] then []
    else Alone(objects[..|objects| - 1]) + if objects[|objects| - 1].alone then [objects[|objects| - 1]] else []
  }

  function With(groups: seq<Group>, i: nat, it: Item): (r: seq<Group>)
    requires i < |groups|
    ensures |r| == |groups|
  {
    groups[i := Group(groups[i].name, groups[i].objects + [it])]
  }

  lemma MultisetMore(a: seq<Item>, b: seq<Item>, more: seq<Item>, it: Item)
    requires multiset(a) == multiset(b) + multiset{it}
    ensures multiset(a + more) == multiset(b + more) + multiset{it}
  {
  }

  lemma MultisetLast(a: seq<Item>, b: seq<Item>, it: Item)
    ensures multiset(a + (b + [it])) == multiset(a + b) + multiset{it}
  {
    assert a + (b + [it]) == (a + b) + [it];
  }

  lemma {:induction false} RowsWith(groups: seq<Group>, i: nat, it: Item)
    requires i < |groups|
    ensures multiset(Rows(With(groups, i, it))) == multiset(Rows(groups)) + multiset{it}
    decreases |groups|
  {
    var before, last := groups[..|groups| - 1], groups[|groups| - 1];
    assert groups == before + [last];
    RowsMore(before, last);
    if i < |before| {
      RowsWith(before, i, it);
      assert With(groups, i, it) == With(before, i, it) + [last];
      RowsMore(With(before, i, it), last);
      MultisetMore(Rows(With(before, i, it)), Rows(before), last.objects, it);
    } else {
      var more := Group(last.name, last.objects + [it]);
      assert With(groups, i, it) == before + [more];
      RowsMore(before, more);
      MultisetLast(Rows(before), last.objects, it);
    }
  }

  predicate HasId(it: Item, name: string, id: string) {
    it.name == name && it.id == id
  }

  /** Of each class and id the same rows, in the same order. */
  ghost predicate SameIds(a: seq<Item>, b: seq<Item>) {
    forall name, id {:trigger OfId(a, name, id)} :: OfId(a, name, id) == OfId(b, name, id)
  }

  lemma SameIdsMore(a: seq<Item>, b: seq<Item>, c: seq<Item>, it: Item)
    requires SameIds(a, b + [it]) && SameIds(b, c)
    ensures SameIds(a, c + [it])
  {
    forall name, id ensures OfId(a, name, id) == OfId(c + [it], name, id) {
      OfIdMore(b, it, name, id);
      OfIdMore(c, it, name, id);
    }
  }

  lemma StartOfClasses(groups: seq<Group>)
    requires groups != [] && OfTheirClasses(groups)
    ensures OfTheirClasses(groups[..|groups| - 1]) && OfItsClass(groups[|groups| - 1])
  {
    var before := groups[..|groups| - 1];
    forall k | 0 <= k < |before| ensures OfItsClass(before[k]) {
      assert OfItsClass(groups[k]);
    }
  }

  lemma LastIsLastOfId(before: seq<Group>, last: Group, it: Item, name: string, id: string)
    ensures OfId(Rows(before + [Group(last.name, last.objects + [it])]), name, id)
      == OfId(Rows(before + [last]) + [it], name, id)
  {
    RowsMore(before, Group(last.name, last.objects + [it]));
    RowsMore(before, last);
    assert Rows(before) + (last.objects + [it]) == Rows(before) + last.objects + [it];
  }

  /** A row added to its class, and a class of another name after it. */
  lemma OtherClassAfter(rows: seq<Item>, it: Item, last: Group, name: string, id: string)
    requires OfItsClass(last) && it.name != last.name
    ensures OfId(rows + [it] + last.objects, name, id) == OfId(rows + last.objects + [it], name, id)
  {
    OfIdBoth(rows + [it], last.objects, name, id);
    OfIdMore(rows, it, name, id);
    OfIdMore(rows + last.objects, it, name, id);
    OfIdBoth(rows, last.objects, name, id);
    OfIdOfClass(last.objects, last.name, name, id);
    OneOfTwo(OfId(rows, name, id), if HasId(it, name, id) then [it] else [], OfId(last.objects, name, id));
  }

  lemma {:induction false} WithIsLastOfId(groups: seq<Group>, i: nat, it: Item, name: string, id: string)
    requires i < |groups| && groups[i].name == it.name && OneEach(groups) && OfTheirClasses(groups)
    ensures OfId(Rows(With(groups, i, it)), name, id) == OfId(Rows(groups) + [it], name, id)
    decreases |groups|
  {
    var before, last := groups[..|groups| - 1], groups[|groups| - 1];
    assert groups == before + [last];
    StartOfClasses(groups);
    if i < |before| {
      WithIsLastOfId(before, i, it, name, id);
      assert With(groups, i, it) == With(before, i, it) + [last];
      RowsOfId(With(before, i, it), last, name, id);
      OfIdBoth(Rows(before) + [it], last.objects, name, id);
      OtherClassAfter(Rows(before), it, last, name, id);
      RowsMore(before, last);
    } else {
      assert With(groups, i, it) == before + [Group(last.name, last.objects + [it])];
      LastIsLastOfId(before, last, it, name, id);
    }
  }

  lemma WithIsGrouped(groups: seq<Group>, i: nat, it: Item)
    requires i < |groups| && groups[i].name == it.name && OneEach(groups) && OfTheirClasses(groups)
    ensures OneEach(With(groups, i, it)) && OfTheirClasses(With(groups, i, it))
  {
    var r := With(groups, i, it);
    forall k | 0 <= k < |r| ensures r[k].name == groups[k].name && OfItsClass(r[k]) {
      assert OfItsClass(groups[k]);
    }
  }

  lemma NewIsGrouped(groups: seq<Group>, it: Item)
    requires OneEach(groups) && OfTheirClasses(groups) && forall k | 0 <= k < |groups| :: groups[k].name != it.name
    ensures OneEach(groups + [Group(it.name, [it])]) && OfTheirClasses(groups + [Group(it.name, [it])])
  {
  }

  /** The groups hold those fragments, a group for each class, and of each id in the order they came in. */
  ghost predicate AreOf(groups: seq<Group>, kept: seq<Item>) {
    && OneEach(groups) && OfTheirClasses(groups)
    && multiset(Rows(groups)) == multiset(kept)
    && SameIds(Rows(groups), kept)
  }

  lemma WithAreOf(groups: seq<Group>, i: nat, it: Item, kept: seq<Item>)
    requires i < |groups| && groups[i].name == it.name && AreOf(groups, kept)
    ensures AreOf(With(groups, i, it), kept + [it])
  {
    RowsWith(groups, i, it);
    WithIsGrouped(groups, i, it);
    forall name, id ensures OfId(Rows(With(groups, i, it)), name, id) == OfId(Rows(groups) + [it], name, id) {
      WithIsLastOfId(groups, i, it, name, id);
    }
    SameIdsMore(Rows(With(groups, i, it)), Rows(groups), kept, it);
  }

  lemma NewAreOf(groups: seq<Group>, it: Item, kept: seq<Item>)
    requires AreOf(groups, kept) && forall k | 0 <= k < |groups| :: groups[k].name != it.name
    ensures AreOf(groups + [Group(it.name, [it])], kept + [it])
  {
    RowsMore(groups, Group(it.name, [it]));
    NewIsGrouped(groups, it);
    SameIdsMore(Rows(groups) + [it], Rows(groups), kept, it);
  }

  /** The fragment with those of its class. */
  method Added(groups: seq<Group>, it: Item, ghost kept: seq<Item>) returns (r: seq<Group>)
    requires AreOf(groups, kept)
    ensures AreOf(r, kept + [it])
  {
    var i := 0;
    while i < |groups| && groups[i].name != it.name
      invariant 0 <= i <= |groups| && forall k | 0 <= k < i :: groups[k].name != it.name
    {
      i := i + 1;
    }
    if i < |groups| {
      WithAreOf(groups, i, it, kept);
      r := With(groups, i, it);
    } else {
      NewAreOf(groups, it, kept);
      r := groups + [Group(it.name, [it])];
    }
  }

  lemma PartsMore(objects: seq<Item>, n: nat)
    requires n < |objects|
    ensures Fragments(objects[..n + 1]) == Fragments(objects[..n]) + if objects[n].alone then [] else [objects[n]]
    ensures Alone(objects[..n + 1]) == Alone(objects[..n]) + if objects[n].alone then [objects[n]] else []
  {
    assert objects[..n + 1][..n] == objects[..n];
  }

  /** The batch's fragments by class, in the order their classes are first met, and the others apart. */
  method Grouped(objects: seq<Item>) returns (groups: seq<Group>, views: seq<Item>)
    ensures views == Alone(objects)
    ensures AreOf(groups, Fragments(objects))
  {
    groups, views := [], [];
    ghost var kept: seq<Item> := [];
    for n := 0 to |objects|
      invariant views == Alone(objects[..n]) && kept == Fragments(objects[..n])
      invariant AreOf(groups, kept)
    {
      var it := objects[n];
      PartsMore(objects, n);
      if it.alone {
        views := views + [it];
      } else {
        groups := Added(groups, it, kept);
        kept := kept + [it];
      }
    }
    assert objects[..|objects|] == objects;
  }

  lemma {:induction false} RowIsOfGroup(groups: seq<Group>, k: nat)
    requires k < |Rows(groups)|
    ensures exists g, i :: 0 <= g < |groups| && 0 <= i < |groups[g].objects| && Rows(groups)[k] == groups[g].objects[i]
  {
    var last := |groups| - 1;
    if k < |Rows(groups[..last])| {
      RowIsOfGroup(groups[..last], k);
      var g, i :| 0 <= g < last && 0 <= i < |groups[..last][g].objects|
        && Rows(groups[..last])[k] == groups[..last][g].objects[i];
      assert Rows(groups)[k] == groups[g].objects[i];
    } else {
      assert Rows(groups)[k] == groups[last].objects[k - |Rows(groups[..last])|];
    }
  }

  /** Groups in the order of their names, each in the order of its ids, one after another. */
  lemma {:induction false} RowsInLockOrder(groups: seq<Group>)
    requires SortedBy(groups, NameOf()) && OneEach(groups) && OfTheirClasses(groups)
    requires forall i | 0 <= i < |groups| :: SortedBy(groups[i].objects, IdOf())
    ensures InLockOrder(Rows(groups))
  {
    if groups != [] {
      var last := |groups| - 1;
      var before, own := Rows(groups[..last]), groups[last].objects;
      RowsInLockOrder(groups[..last]);
      forall i, j | 0 <= i < |before| && 0 <= j < |own| ensures !Precedes(KeyOf(own[j]), KeyOf(before[i])) {
        RowIsOfGroup(groups[..last], i);
        var g, k :| 0 <= g < last && 0 <= k < |groups[..last][g].objects| && before[i] == groups[..last][g].objects[k];
        assert OfItsClass(groups[g]) && OfItsClass(groups[last]);
        assert !TextBefore(NameOf()(groups[last]), NameOf()(groups[g]));
      }
      forall i, j | 0 <= i < j < |own| ensures !Precedes(KeyOf(own[j]), KeyOf(own[i])) {
        assert OfItsClass(groups[last]) && !TextBefore(IdOf()(own[j]), IdOf()(own[i]));
        TextsAreOrdered(own[i].name, own[j].name);
      }
    }
  }

  lemma {:induction false} InsertKeepsRows(groups: seq<Group>, g: Group)
    ensures multiset(Rows(Insert(groups, g, NameOf()))) == multiset(Rows(groups)) + multiset(g.objects)
    decreases |groups|
  {
    if groups != [] {
      var before, last := groups[..|groups| - 1], groups[|groups| - 1];
      assert groups == before + [last];
      RowsMore(before, last);
      RowsMore(groups, g);
      InsertKeepsRows(before, g);
      RowsMore(Insert(before, g, NameOf()), last);
    } else {
      RowsMore([], g);
      assert [] + [g] == [g];
    }
  }

  lemma {:induction false} InsertIsOfId(groups: seq<Group>, g: Group, name: string, id: string)
    requires NoneNamed(groups, g.name) && OfTheirClasses(groups) && OfItsClass(g)
    ensures OfId(Rows(Insert(groups, g, NameOf())), name, id)
      == OfId(Rows(groups), name, id) + OfId(g.objects, name, id)
    decreases |groups|
  {
    if groups == [] || !TextBefore(g.name, groups[|groups| - 1].name) {
      RowsOfId(groups, g, name, id);
      assert groups == [] ==> groups + [g] == [g];
    } else {
      var before, last := groups[..|groups| - 1], groups[|groups| - 1];
      assert groups == before + [last];
      StartOfClasses(groups);
      InsertIsOfId(before, g, name, id);
      RowsOfId(before, last, name, id);
      RowsOfId(Insert(before, g, NameOf()), last, name, id);
      OneClassOfId(OfId(Rows(before), name, id), g, last, name, id);
    }
  }

  lemma {:induction false} SortIsOfId(groups: seq<Group>, name: string, id: string)
    requires OneEach(groups) && OfTheirClasses(groups)
    ensures OfTheirClasses(SortBy(groups, NameOf()))
    ensures OfId(Rows(SortBy(groups, NameOf())), name, id) == OfId(Rows(groups), name, id)
  {
    SortOfClasses(groups);
    if groups != [] {
      var before, last := groups[..|groups| - 1], groups[|groups| - 1];
      assert groups == before + [last];
      StartOfClasses(groups);
      SortIsOfId(before, name, id);
      OneEachMore(before, last);
      SortNames(before, last.name);
      InsertIsOfId(SortBy(before, NameOf()), last, name, id);
      RowsOfId(before, last, name, id);
    }
  }

  lemma SortOfClasses(groups: seq<Group>)
    requires OfTheirClasses(groups)
    ensures OfTheirClasses(SortBy(groups, NameOf()))
  {
    var sorted := SortBy(groups, NameOf());
    SortIsStable(groups, NameOf());
    forall i | 0 <= i < |sorted| ensures OfItsClass(sorted[i]) {
      assert sorted[i] in multiset(groups);
      var k :| 0 <= k < |groups| && groups[k] == sorted[i];
      assert OfItsClass(groups[k]);
    }
  }

  lemma OrderedOfId(g: Group, name: string, id: string)
    requires OfItsClass(g)
    ensures OfId(Ordered(g).objects, name, id) == OfId(g.objects, name, id)
  {
    OrderedIs(g);
    SortIsStable(g.objects, IdOf());
    OfIdOfClass(g.objects, g.name, name, id);
    OfIdOfClass(Ordered(g).objects, g.name, name, id);
  }

  lemma {:induction false} OrderedIsOfId(groups: seq<Group>, name: string, id: string)
    requires OfTheirClasses(groups)
    ensures OfId(Rows(EachOrdered(groups)), name, id) == OfId(Rows(groups), name, id)
  {
    if groups != [] {
      var before, last := groups[..|groups| - 1], groups[|groups| - 1];
      assert groups == before + [last];
      StartOfClasses(groups);
      OrderedIsOfId(before, name, id);
      OrderedOfId(last, name, id);
      RowsOfId(before, last, name, id);
      RowsOfId(EachOrdered(before), Ordered(last), name, id);
    }
  }

  lemma {:induction false} SortKeepsRows(groups: seq<Group>)
    ensures multiset(Rows(SortBy(groups, NameOf()))) == multiset(Rows(groups))
  {
    if groups != [] {
      var before, last := groups[..|groups| - 1], groups[|groups| - 1];
      assert groups == before + [last];
      RowsMore(before, last);
      SortKeepsRows(before);
      InsertKeepsRows(SortBy(before, NameOf()), last);
    }
  }

  lemma {:induction false} OrderedKeepsRows(groups: seq<Group>)
    ensures multiset(Rows(EachOrdered(groups))) == multiset(Rows(groups))
  {
    if groups != [] {
      var before, last := groups[..|groups| - 1], groups[|groups| - 1];
      OrderedKeepsRows(before);
      SortIsStable(last.objects, IdOf());
      RowsMore(EachOrdered(before), Ordered(last));
    }
  }

  lemma LockOrderedKeepsRows(groups: seq<Group>)
    ensures multiset(Rows(LockOrdered(groups))) == multiset(Rows(groups))
  {
    SortKeepsRows(groups);
    OrderedKeepsRows(SortBy(groups, NameOf()));
  }

  lemma OrderedIs(g: Group)
    requires OfItsClass(g)
    ensures OfItsClass(Ordered(g)) && SortedBy(Ordered(g).objects, IdOf())
  {
    var sorted := SortBy(g.objects, IdOf());
    SortIsStable(g.objects, IdOf());
    forall n | 0 <= n < |sorted| ensures sorted[n].name == g.name {
      assert sorted[n] in multiset(g.objects);
    }
  }

  lemma LockOrderedIsOrdered(groups: seq<Group>)
    requires OneEach(groups) && OfTheirClasses(groups)
    ensures OfTheirClasses(LockOrdered(groups)) && InLockOrder(Rows(LockOrdered(groups)))
  {
    var sorted, to := SortBy(groups, NameOf()), LockOrdered(groups);
    SortIsStable(groups, NameOf());
    forall i | 0 <= i < |to| ensures OfItsClass(to[i]) && SortedBy(to[i].objects, IdOf()) {
      assert sorted[i] in multiset(groups);
      var k :| 0 <= k < |groups| && groups[k] == sorted[i];
      assert OfItsClass(groups[k]);
      OrderedIs(groups[k]);
    }
    SortOneEach(groups);
    assert SortedBy(to, NameOf()) && OneEach(to);
    RowsInLockOrder(to);
  }

  predicate NoneNamed(groups: seq<Group>, name: string) {
    forall i | 0 <= i < |groups| :: groups[i].name != name
  }

  lemma {:induction false} InsertNames(groups: seq<Group>, g: Group, name: string)
    ensures NoneNamed(Insert(groups, g, NameOf()), name) <==> NoneNamed(groups, name) && g.name != name
    decreases |groups|
  {
    if groups != [] {
      var before, last := groups[..|groups| - 1], groups[|groups| - 1];
      assert groups == before + [last];
      InsertNames(before, g, name);
      NamesMore(before, last, name);
      NamesMore(groups, g, name);
      NamesMore(Insert(before, g, NameOf()), last, name);
    } else {
      NamesMore([], g, name);
      assert [] + [g] == [g];
    }
  }

  lemma NamesMore(groups: seq<Group>, g: Group, name: string)
    ensures NoneNamed(groups + [g], name) <==> NoneNamed(groups, name) && g.name != name
  {
    if NoneNamed(groups + [g], name) {
      assert (groups + [g])[|groups|] == g && forall i | 0 <= i < |groups| :: (groups + [g])[i] == groups[i];
    }
  }

  lemma OneEachMore(groups: seq<Group>, g: Group)
    ensures OneEach(groups + [g]) <==> OneEach(groups) && NoneNamed(groups, g.name)
  {
    var all := groups + [g];
    if OneEach(all) {
      forall i | 0 <= i < |groups| ensures groups[i].name != g.name {
        assert all[i] == groups[i] && all[|groups|] == g;
      }
      forall i, j | 0 <= i < j < |groups| ensures groups[i].name != groups[j].name {
        assert all[i] == groups[i] && all[j] == groups[j];
      }
    }
  }

  lemma {:induction false} InsertOneEach(groups: seq<Group>, g: Group)
    requires OneEach(groups) && NoneNamed(groups, g.name)
    ensures OneEach(Insert(groups, g, NameOf()))
    decreases |groups|
  {
    if groups == [] {
      OneEachMore([], g);
      assert [] + [g] == [g];
    } else {
      var before, last := groups[..|groups| - 1], groups[|groups| - 1];
      assert groups == before + [last];
      OneEachMore(before, last);
      OneEachMore(groups, g);
      NamesMore(before, last, g.name);
      InsertOneEach(before, g);
      InsertNames(before, g, last.name);
      OneEachMore(Insert(before, g, NameOf()), last);
    }
  }

  lemma {:induction false} SortNames(groups: seq<Group>, name: string)
    ensures NoneNamed(SortBy(groups, NameOf()), name) <==> NoneNamed(groups, name)
  {
    if groups != [] {
      var before, last := groups[..|groups| - 1], groups[|groups| - 1];
      assert groups == before + [last];
      SortNames(before, name);
      InsertNames(SortBy(before, NameOf()), last, name);
      NamesMore(before, last, name);
    }
  }

  lemma {:induction false} SortOneEach(groups: seq<Group>)
    requires OneEach(groups)
    ensures OneEach(SortBy(groups, NameOf()))
  {
    if groups != [] {
      var before, last := groups[..|groups| - 1], groups[|groups| - 1];
      assert groups == before + [last];
      OneEachMore(before, last);
      SortOneEach(before);
      SortNames(before, last.name);
      InsertOneEach(SortBy(before, NameOf()), last);
    }
  }

  /** The rows of a batch, one statement after another: each fragment once, in the one order every batch writes in. */
  ghost predicate IsBatch(objects: seq<Item>, rows: seq<Item>) {
    && multiset(rows) == multiset(Fragments(objects))
    && InLockOrder(rows)
    && SameIds(rows, Fragments(objects))
  }

  /** The batch as statements of no more than `size` rows. */
  method SaveAll(objects: seq<Item>, size: nat) returns (chunks: seq<seq<Group>>, views: seq<Item>)
    requires size >= 1
    ensures views == Alone(objects) && IsBatch(objects, ChunkRows(chunks))
    ensures AllFit(chunks, size) && AllOfTheirClasses(chunks) && AllFull(chunks, size)
  {
    var groups;
    groups, views := Grouped(objects);
    forall name, id ensures OfId(Rows(LockOrdered(groups)), name, id) == OfId(Rows(groups), name, id) {
      SortIsOfId(groups, name, id);
      OrderedIsOfId(SortBy(groups, NameOf()), name, id);
    }
    LockOrderedIsOrdered(groups);
    LockOrderedKeepsRows(groups);
    chunks := Chunked(LockOrdered(groups), size);
  }
}
