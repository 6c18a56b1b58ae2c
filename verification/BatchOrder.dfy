/**
 * Which of two objects of one node a saveAll writes last (src/manager/StatelessGraphObjectManager.ts:171-185, 652-690):
 * rows go before the statements of their own, and in the order of their classes' names and ids.
 */
module BatchOrder {
  import opened Graphs
  import opened Orders
  import opened Batches
  import opened BatchLocks

  /** Whether an object's statement, or its row, writes a node. */
  predicate Writes(m: Merging, it: Item, n: NodeId) {
    m.at(KeyOf(it)) == n || (it.alone && n in m.also(it))
  }

  /** The objects that write a node, as they stand: the last of them is what the node holds in the end. */
  function OfNode(m: Merging, objects: seq<Item>, n: NodeId): seq<Item> {
    if objects == [] then []
    else
      var last := objects[|objects| - 1];
      OfNode(m, objects[..|objects| - 1], n) + if Writes(m, last, n) then [last] else []
  }

  /** Of each node the same objects, in the same order. */
  ghost predicate SameOfNodes(m: Merging, a: seq<Item>, b: seq<Item>) {
    forall n {:trigger OfNode(m, a, n)} :: OfNode(m, a, n) == OfNode(m, b, n)
  }

  /** A saveAll writes the objects of each node in the order they were given in. */
  ghost predicate KeepsGivenOrder(m: Merging) {
    forall objects, rows | IsBatch(objects, rows) && AreObjects(m, objects) ::
      SameOfNodes(m, rows + Alone(objects), objects)
  }

  /** What a statement of its own writes is no row's: neither its object's own node, nor any it writes besides. */
  ghost predicate OwnApart(m: Merging) {
    forall it: Item, k: Key | it.alone && it.name in m.own && k.name in m.rows ::
      m.at(KeyOf(it)) != m.at(k) && m.at(k) !in m.also(it)
  }

  lemma {:induction false} OfNodeBoth(m: Merging, a: seq<Item>, b: seq<Item>, n: NodeId)
    ensures OfNode(m, a + b, n) == OfNode(m, a, n) + OfNode(m, b, n)
    decreases |b|
  {
    if b == [] {
      assert a + b == a;
    } else {
      var last := |b| - 1;
      OfNodeBoth(m, a, b[..last], n);
      assert (a + b)[..|a + b| - 1] == a + b[..last] && (a + b)[|a + b| - 1] == b[last];
      Joined(OfNode(m, a, n), OfNode(m, b[..last], n), if Writes(m, b[last], n) then [b[last]] else []);
    }
  }

  lemma {:induction false} NoneOfNode(m: Merging, objects: seq<Item>, n: NodeId)
    requires forall it <- objects :: !Writes(m, it, n)
    ensures OfNode(m, objects, n) == []
  {
    if objects != [] {
      NoneOfNode(m, objects[..|objects| - 1], n);
      assert objects[|objects| - 1] in objects;
    }
  }

  lemma {:induction false} OfNodeIs(m: Merging, rows: seq<Item>, k: Key)
    requires OneKeyEach(m) && k.name in m.rows && forall it <- rows :: !it.alone && it.name in m.rows
    ensures OfNode(m, rows, m.at(k)) == OfId(rows, k.name, k.id)
  {
    if rows != [] {
      OfNodeIs(m, rows[..|rows| - 1], k);
      assert rows[|rows| - 1] in rows;
    }
  }

  lemma OfNodeMore(m: Merging, objects: seq<Item>, it: Item, n: NodeId)
    ensures OfNode(m, objects + [it], n) == OfNode(m, objects, n) + if Writes(m, it, n) then [it] else []
  {
    assert (objects + [it])[..|objects|] == objects;
  }

  /** Of a node that no statement of its own writes. */
  lemma {:induction false} OfNodeOfRows(m: Merging, objects: seq<Item>, n: NodeId)
    requires forall it <- objects | it.alone :: !Writes(m, it, n)
    ensures OfNode(m, objects, n) == OfNode(m, Fragments(objects), n)
  {
    if objects != [] {
      var k := |objects| - 1;
      var before, last := objects[..k], objects[k];
      assert forall it <- before :: it in objects;
      OfNodeOfRows(m, before, n);
      PartsMore(objects, k);
      assert objects[..k + 1] == objects;
      if !last.alone {
        OfNodeMore(m, Fragments(before), last, n);
      } else {
        assert last in objects && Fragments(objects) == Fragments(before);
        assert OfNode(m, objects, n) == OfNode(m, before, n);
      }
    }
  }

  /** Of a node that no row writes. */
  lemma {:induction false} OfNodeOfOwn(m: Merging, objects: seq<Item>, n: NodeId)
    requires forall it <- objects | !it.alone :: !Writes(m, it, n)
    ensures OfNode(m, objects, n) == OfNode(m, Alone(objects), n)
  {
    if objects != [] {
      var k := |objects| - 1;
      var before, last := objects[..k], objects[k];
      assert forall it <- before :: it in objects;
      OfNodeOfOwn(m, before, n);
      PartsMore(objects, k);
      assert objects[..k + 1] == objects;
      if last.alone {
        OfNodeMore(m, Alone(before), last, n);
      } else {
        assert last in objects && Alone(objects) == Alone(before);
        assert OfNode(m, objects, n) == OfNode(m, before, n);
      }
    }
  }

  lemma RowsKeepGivenOrder(m: Merging, objects: seq<Item>, rows: seq<Item>, n: NodeId)
    requires OneKeyEach(m) && IsBatch(objects, rows) && AreObjects(m, objects)
    ensures OfNode(m, rows, n) == OfNode(m, Fragments(objects), n)
  {
    var given := Fragments(objects);
    RowsAreFragments(m, objects, rows);
    if it :| it in rows && m.at(KeyOf(it)) == n {
      OfNodeIs(m, rows, KeyOf(it));
      OfNodeIs(m, given, KeyOf(it));
    } else {
      NoneOfNode(m, rows, n);
      NoneOfNode(m, given, n);
    }
  }

  lemma BatchKeepsGivenOrder(m: Merging, objects: seq<Item>, rows: seq<Item>, n: NodeId)
    requires OneKeyEach(m) && OwnApart(m) && IsBatch(objects, rows) && AreObjects(m, objects)
    ensures OfNode(m, rows + Alone(objects), n) == OfNode(m, objects, n)
  {
    PartsAre(objects);
    RowsKeepGivenOrder(m, objects, rows, n);
    OfNodeBoth(m, rows, Alone(objects), n);
    if it :| it in objects && !it.alone && Writes(m, it, n) {
      assert IsObject(m, it) && m.at(KeyOf(it)) == n;
      forall own <- objects | own.alone ensures !Writes(m, own, n) {
        assert IsObject(m, own);
      }
      OfNodeOfRows(m, objects, n);
      NoneOfNode(m, Alone(objects), n);
    } else {
      OfNodeOfOwn(m, objects, n);
      NoneOfNode(m, Fragments(objects), n);
    }
  }

  /**
   * A saveAll writes the objects of each node in the order given, the last still last, if and only if no node is that
   * of rows of two class names, and none is written both by a row and by a statement of its own.
   */
  lemma KeepsOrderIffApart(m: Merging)
    requires IdsApart(m)
    ensures KeepsGivenOrder(m) <==> OneNameEach(m) && OwnApart(m)
  {
    if OneNameEach(m) && OwnApart(m) {
      KeysAreNames(m);
      forall objects, rows | IsBatch(objects, rows) && AreObjects(m, objects)
        ensures SameOfNodes(m, rows + Alone(objects), objects)
      {
        forall n ensures OfNode(m, rows + Alone(objects), n) == OfNode(m, objects, n) {
          BatchKeepsGivenOrder(m, objects, rows, n);
        }
      }
    } else if !OneNameEach(m) {
      var a, b, i, j :| a in m.rows && b in m.rows && m.at(Key(a, i)) == m.at(Key(b, j)) && a != b;
      TextsAreOrdered(a, b);
      if TextBefore(a, b) {
        Reordered(m, Item(a, i, 1, false), Item(b, j, 0, false), m.at(Key(a, i)));
      } else {
        Reordered(m, Item(b, j, 1, false), Item(a, i, 0, false), m.at(Key(a, i)));
      }
    } else {
      var it: Item, k: Key :| it.alone && it.name in m.own && k.name in m.rows && Writes(m, it, m.at(k));
      RowGoesFirst(m, Item(k.name, k.id, 0, false), it, m.at(k));
    }
  }

  lemma OrderedTwo(a: Item, b: Item)
    requires TextBefore(a.name, b.name)
    ensures InLockOrder([a, b])
  {
    TextsAreOrdered(a.name, b.name);
  }

  lemma TwoOfTwoClasses(a: Item, b: Item)
    requires !a.alone && !b.alone && TextBefore(a.name, b.name)
    ensures IsBatch([b, a], [a, b]) && Alone([b, a]) == [] && a != b
  {
    TextsAreOrdered(a.name, b.name);
    TwoIds(a, b);
    TwoIds(b, a);
    OrderedTwo(a, b);
    assert SameIds([a, b], [b, a]);
  }

  lemma OtherOrder(m: Merging, a: Item, b: Item, n: NodeId)
    requires a != b && Writes(m, a, n) && Writes(m, b, n)
    ensures !SameOfNodes(m, [a, b], [b, a])
  {
    TwoOfNode(m, a, b, n);
    TwoOfNode(m, b, a, n);
    assert [a, b][0] != [b, a][0];
    assert OfNode(m, [a, b], n) != OfNode(m, [b, a], n);
  }

  lemma TwoOfNode(m: Merging, a: Item, b: Item, n: NodeId)
    requires Writes(m, a, n) && Writes(m, b, n)
    ensures OfNode(m, [a, b], n) == [a, b]
  {
    assert [a, b][..1] == [a] && [a][..0] == [];
    assert OfNode(m, [a], n) == [a];
  }

  lemma NotKept(m: Merging, objects: seq<Item>, rows: seq<Item>, written: seq<Item>)
    requires IsBatch(objects, rows) && AreObjects(m, objects) && written == rows + Alone(objects)
    requires !SameOfNodes(m, written, objects)
    ensures !KeepsGivenOrder(m)
  {}

  /** One node under two class names: the row given first is written last. */
  lemma Reordered(m: Merging, a: Item, b: Item, n: NodeId)
    requires !a.alone && !b.alone && TextBefore(a.name, b.name) && Writes(m, a, n) && Writes(m, b, n)
    requires a.name in m.rows && b.name in m.rows
    ensures !KeepsGivenOrder(m)
  {
    TwoOfTwoClasses(a, b);
    OtherOrder(m, a, b, n);
    NotKept(m, [b, a], [a, b], [a, b]);
  }

  lemma OneOfEach(row: Item, own: Item)
    requires !row.alone && own.alone
    ensures Fragments([own, row]) == [row] && Alone([own, row]) == [own] && IsBatch([own, row], [row])
  {
    assert [own, row][..1] == [own] && [own][..0] == [];
    assert Fragments([own]) == [] && Alone([own]) == [own];
  }

  /** A statement of its own, given before a row of the same node, is written after it. */
  lemma RowGoesFirst(m: Merging, row: Item, own: Item, n: NodeId)
    requires !row.alone && own.alone && row.name in m.rows && own.name in m.own
    requires Writes(m, row, n) && Writes(m, own, n)
    ensures !KeepsGivenOrder(m)
  {
    OneOfEach(row, own);
    OtherOrder(m, row, own, n);
    NotKept(m, [own, row], [row], [row, own]);
  }
}
