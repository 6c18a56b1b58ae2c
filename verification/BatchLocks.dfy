/**
 * Batches that run at once, each in a transaction that locks nodes one after another and lets go of them when it
 * commits (src/manager/StatelessGraphObjectManager.ts:171-185, 652-690, 967-986,
 * src/backend/FragmentBatchStatement.ts:40-53). A batch writes its rows first, in the order of their classes' names and
 * ids; a row locks the node its MERGE matches, by labels and id, which may be that of rows of two classes. The objects
 * that are statements of their own come after, in the order they were given in, and each locks its root first
 * (src/backend/SaveStatementBuilder.ts:234-263).
 */
module BatchLocks {
  import opened Graphs
  import opened Orders
  import opened Batches

  /**
   * The classes whose objects are rows of a batch, and those whose objects are statements of their own; the node an
   * object is merged on, and the nodes one that is a statement of its own writes besides.
   */
  datatype Merging = Merging(rows: set<string>, own: set<string>, at: Key -> NodeId, also: Item -> seq<NodeId>)

  predicate IsObject(m: Merging, it: Item) {
    it.name in if it.alone then m.own else m.rows
  }

  ghost predicate AreObjects(m: Merging, objects: seq<Item>) {
    forall it <- objects :: IsObject(m, it)
  }

  /** Two ids of one class are of two nodes. */
  ghost predicate IdsApart(m: Merging) {
    forall name, i, j | name in m.rows + m.own && m.at(Key(name, i)) == m.at(Key(name, j)) :: i == j
  }

  /** No node is that of rows of two class names. */
  ghost predicate OneNameEach(m: Merging) {
    forall a, b, i, j | a in m.rows && b in m.rows && m.at(Key(a, i)) == m.at(Key(b, j)) :: a == b
  }

  /** Each node has one place in the order. */
  ghost predicate OneKeyEach(m: Merging) {
    forall k: Key, l: Key | k.name in m.rows && l.name in m.rows && m.at(k) == m.at(l) :: k == l
  }

  lemma KeysAreNames(m: Merging)
    requires IdsApart(m)
    ensures OneKeyEach(m) <==> OneNameEach(m)
  {
    if OneNameEach(m) {
      forall k: Key, l: Key | k.name in m.rows && l.name in m.rows && m.at(k) == m.at(l) ensures k == l {
        assert k == Key(k.name, k.id) && l == Key(l.name, l.id);
      }
    }
  }

  lemma KeysAreOrdered(a: Key, b: Key)
    ensures !(Precedes(a, b) && Precedes(b, a)) && !Precedes(a, a)
    ensures Precedes(a, b) || Precedes(b, a) || a == b
  {
    TextsAreOrdered(a.name, b.name);
    TextsAreOrdered(a.id, b.id);
  }

  lemma KeysGoOn(a: Key, b: Key, c: Key)
    requires Precedes(a, b) && Precedes(b, c)
    ensures Precedes(a, c)
  {
    TextsAreOrdered(a.name, b.name);
    TextsAreOrdered(b.name, c.name);
    if TextBefore(a.name, b.name) && TextBefore(b.name, c.name) {
      TextsGoOn(a.name, b.name, c.name);
    } else if a.name == b.name && b.name == c.name {
      TextsGoOn(a.id, b.id, c.id);
    }
  }

  // ---- What a batch locks

  /** One lock: a row's, which is of the node of its key, or another's. */
  datatype Lock = OfRow(key: Key) | OfOwn(node: NodeId)

  function NodeOf(m: Merging, lock: Lock): NodeId {
    if lock.OfRow? then m.at(lock.key) else lock.node
  }

  function RowLocks(rows: seq<Item>): (locks: seq<Lock>)
    ensures |locks| == |rows| && forall i | 0 <= i < |rows| :: locks[i] == OfRow(KeyOf(rows[i]))
  {
    seq(|rows|, i requires 0 <= i < |rows| => OfRow(KeyOf(rows[i])))
  }

  function NodeLocks(nodes: seq<NodeId>): (locks: seq<Lock>)
    ensures |locks| == |nodes| && forall i | 0 <= i < |nodes| :: locks[i] == OfOwn(nodes[i])
  {
    seq(|nodes|, i requires 0 <= i < |nodes| => OfOwn(nodes[i]))
  }

  /** Of an object that is a statement of its own: its root, and then what else it writes. */
  function OwnLocks(m: Merging, objects: seq<Item>): seq<Lock> {
    if objects == [] then []
    else [OfOwn(m.at(KeyOf(objects[0])))] + NodeLocks(m.also(objects[0])) + OwnLocks(m, objects[1..])
  }

  // ---- Transactions

  /** The locks a transaction takes, in turn, and how many it has. Once it has them all it commits. */
  datatype Transaction = Transaction(locks: seq<Lock>, taken: nat)

  predicate Unfinished(t: Transaction) {
    t.taken < |t.locks|
  }

  predicate Holds(m: Merging, t: Transaction, n: NodeId) {
    Unfinished(t) && exists i | 0 <= i < t.taken :: NodeOf(m, t.locks[i]) == n
  }

  /** The lock a transaction takes next. */
  function Next(ts: seq<Transaction>, i: nat): Lock {
    if i < |ts| && Unfinished(ts[i]) then ts[i].locks[ts[i].taken] else OfOwn(0)
  }

  predicate WaitsFor(m: Merging, ts: seq<Transaction>, i: nat, j: nat) {
    i < |ts| && j < |ts| && i != j && Unfinished(ts[i]) && Holds(m, ts[j], NodeOf(m, Next(ts, i)))
  }

  predicate CanGoOn(m: Merging, ts: seq<Transaction>, i: nat) {
    i < |ts| && Unfinished(ts[i]) && forall j | 0 <= j < |ts| :: !WaitsFor(m, ts, i, j)
  }

  function GoesOn(ts: seq<Transaction>, i: nat): seq<Transaction>
    requires i < |ts|
  {
    ts[i := Transaction(ts[i].locks, ts[i].taken + 1)]
  }

  ghost predicate IsRun(m: Merging, ts: seq<Transaction>, steps: seq<nat>, end: seq<Transaction>)
    decreases |steps|
  {
    if steps == [] then end == ts
    else CanGoOn(m, ts, steps[0]) && IsRun(m, GoesOn(ts, steps[0]), steps[1..], end)
  }

  /** The transaction of a saveAll of the objects, whose rows are written as `rows`, before it has written any. */
  ghost predicate BeginsWith(m: Merging, t: Transaction, objects: seq<Item>, rows: seq<Item>) {
    && t == Transaction(RowLocks(rows) + OwnLocks(m, Alone(objects)), 0)
    && IsBatch(objects, rows)
    && AreObjects(m, objects)
  }

  ghost predicate IsNew(m: Merging, t: Transaction) {
    exists objects, rows :: BeginsWith(m, t, objects, rows)
  }

  ghost predicate Begins(m: Merging, ts: seq<Transaction>) {
    forall i | 0 <= i < |ts| :: IsNew(m, ts[i])
  }

  lemma {:induction false} PartsAre(objects: seq<Item>)
    ensures forall it :: it in Fragments(objects) <==> it in objects && !it.alone
    ensures forall it :: it in Alone(objects) <==> it in objects && it.alone
  {
    if objects != [] {
      PartsAre(objects[..|objects| - 1]);
      assert objects == objects[..|objects| - 1] + [objects[|objects| - 1]];
    }
  }

  lemma RowsAreFragments(m: Merging, objects: seq<Item>, rows: seq<Item>)
    requires IsBatch(objects, rows) && AreObjects(m, objects)
    ensures forall it :: it in rows <==> it in Fragments(objects)
    ensures forall it <- rows :: !it.alone && it.name in m.rows
  {
    PartsAre(objects);
    forall it ensures it in rows <==> it in Fragments(objects) {
      assert it in multiset(rows) <==> it in multiset(Fragments(objects));
    }
    forall it <- rows ensures !it.alone && it.name in m.rows {
      assert IsObject(m, it);
    }
  }

  // ---- Locks that are taken in order

  predicate OfRows(m: Merging, t: Transaction) {
    forall i | 0 <= i < |t.locks| :: t.locks[i].OfRow? && t.locks[i].key.name in m.rows
  }

  predicate Before(a: Lock, b: Lock) {
    a.OfRow? && b.OfRow? && Precedes(a.key, b.key)
  }

  predicate InOrder(t: Transaction) {
    t.taken <= |t.locks| && forall i, j | 0 <= i < j < |t.locks| :: !Before(t.locks[j], t.locks[i])
  }

  /** Each takes the locks of its rows alone, in order, and no lock is held by two. */
  ghost predicate Sound(m: Merging, ts: seq<Transaction>) {
    && (forall i | 0 <= i < |ts| :: InOrder(ts[i]) && OfRows(m, ts[i]))
    && forall i, j, n | 0 <= i < |ts| && 0 <= j < |ts| && Holds(m, ts[i], n) && Holds(m, ts[j], n) :: i == j
  }

  lemma BeginsSound(m: Merging, ts: seq<Transaction>)
    requires Begins(m, ts) && m.own == {}
    ensures Sound(m, ts)
  {
    forall i | 0 <= i < |ts| ensures InOrder(ts[i]) && OfRows(m, ts[i]) && ts[i].taken == 0 {
      assert IsNew(m, ts[i]);
      var objects: seq<Item>, rows: seq<Item> :| BeginsWith(m, ts[i], objects, rows);
      NoneAlone(m, objects);
      RowsAreFragments(m, objects, rows);
      assert ts[i].locks == RowLocks(rows);
      forall k | 0 <= k < |rows| ensures rows[k].name in m.rows {
        assert rows[k] in rows;
      }
    }
  }

  lemma NoneAlone(m: Merging, objects: seq<Item>)
    requires AreObjects(m, objects) && m.own == {}
    ensures Alone(objects) == []
  {
    PartsAre(objects);
    forall it <- objects ensures !it.alone {
      assert IsObject(m, it);
    }
    assert forall it :: it !in Alone(objects);
  }

  lemma HoldsOneMore(m: Merging, t: Transaction, n: NodeId)
    requires Unfinished(t) && Holds(m, Transaction(t.locks, t.taken + 1), n)
    ensures Holds(m, t, n) || n == NodeOf(m, t.locks[t.taken])
  {
    var i :| 0 <= i < t.taken + 1 && NodeOf(m, t.locks[i]) == n;
    if i < t.taken {
      assert Holds(m, t, n);
    }
  }

  lemma StaysSound(m: Merging, ts: seq<Transaction>, i: nat)
    requires Sound(m, ts) && CanGoOn(m, ts, i)
    ensures Sound(m, GoesOn(ts, i))
  {
    var to := GoesOn(ts, i);
    assert InOrder(ts[i]) && OfRows(m, ts[i]);
    forall k | 0 <= k < |to| ensures InOrder(to[k]) && OfRows(m, to[k]) {
      assert InOrder(ts[k]) && OfRows(m, ts[k]);
    }
    forall j, n | 0 <= j < |ts| && j != i && Holds(m, to[i], n) ensures !Holds(m, to[j], n) {
      HoldsOneMore(m, ts[i], n);
      assert to[j] == ts[j] && !WaitsFor(m, ts, i, j);
    }
  }

  lemma {:induction false} RunStaysSound(m: Merging, ts: seq<Transaction>, steps: seq<nat>, end: seq<Transaction>)
    requires Sound(m, ts) && IsRun(m, ts, steps, end)
    ensures Sound(m, end)
    decreases |steps|
  {
    if steps != [] {
      StaysSound(m, ts, steps[0]);
      RunStaysSound(m, GoesOn(ts, steps[0]), steps[1..], end);
    }
  }

  // ---- Waiting

  /** What a transaction waits for comes after all it holds, where each node has one place in the order. */
  lemma WaitsForLater(m: Merging, ts: seq<Transaction>, i: nat, j: nat, k: nat)
    requires OneKeyEach(m) && Sound(m, ts) && WaitsFor(m, ts, i, j) && WaitsFor(m, ts, j, k)
    ensures Before(Next(ts, i), Next(ts, j))
  {
    var held :| 0 <= held < ts[j].taken && NodeOf(m, ts[j].locks[held]) == NodeOf(m, Next(ts, i));
    assert OfRows(m, ts[i]) && OfRows(m, ts[j]) && InOrder(ts[j]);
    assert ts[j].locks[held] == Next(ts, i);
    KeysAreOrdered(Next(ts, i).key, Next(ts, j).key);
    assert Holds(m, ts[j], NodeOf(m, Next(ts, i))) && Holds(m, ts[k], NodeOf(m, Next(ts, j)));
  }

  lemma BeforeGoesOn(a: Lock, b: Lock, c: Lock)
    requires Before(a, b) && Before(b, c)
    ensures Before(a, c)
  {
    KeysGoOn(a.key, b.key, c.key);
  }

  lemma NotBeforeItself(a: Lock, b: Lock)
    ensures !Before(a, a) && !(Before(a, b) && Before(b, a))
  {
    if a.OfRow? {
      KeysAreOrdered(a.key, if b.OfRow? then b.key else a.key);
    }
  }

  /** Each of a chain waits for the next. */
  ghost predicate IsChain(m: Merging, ts: seq<Transaction>, chain: seq<nat>) {
    forall k | 0 <= k < |chain| - 1 :: WaitsFor(m, ts, chain[k], chain[k + 1])
  }

  lemma {:induction false} ChainGoesUp(m: Merging, ts: seq<Transaction>, chain: seq<nat>)
    requires OneKeyEach(m) && Sound(m, ts) && IsChain(m, ts, chain) && |chain| >= 3
    ensures Before(Next(ts, chain[0]), Next(ts, chain[|chain| - 2]))
    decreases |chain|
  {
    var last := |chain| - 1;
    assert WaitsFor(m, ts, chain[last - 2], chain[last - 1]) && WaitsFor(m, ts, chain[last - 1], chain[last]);
    WaitsForLater(m, ts, chain[last - 2], chain[last - 1], chain[last]);
    if last > 2 {
      ChainGoesUp(m, ts, chain[..last]);
      BeforeGoesOn(Next(ts, chain[0]), Next(ts, chain[last - 2]), Next(ts, chain[last - 1]));
    }
  }

  /** Some transactions wait for one another. */
  ghost predicate IsCircle(m: Merging, ts: seq<Transaction>, chain: seq<nat>) {
    |chain| >= 2 && IsChain(m, ts, chain) && chain[0] == chain[|chain| - 1]
  }

  lemma NoCircle(m: Merging, ts: seq<Transaction>, chain: seq<nat>)
    requires OneKeyEach(m) && Sound(m, ts)
    ensures !IsCircle(m, ts, chain)
  {
    if IsCircle(m, ts, chain) {
      var round := chain + [chain[1]];
      assert WaitsFor(m, ts, chain[0], chain[1]);
      assert IsChain(m, ts, round) by {
        forall k | 0 <= k < |round| - 1 ensures WaitsFor(m, ts, round[k], round[k + 1]) {
          assert k < |chain| - 1 ==> WaitsFor(m, ts, chain[k], chain[k + 1]);
        }
      }
      ChainGoesUp(m, ts, round);
      NotBeforeItself(Next(ts, chain[0]), Next(ts, chain[0]));
      assert false;
    }
  }

  // ---- Going on

  /** Of the unfinished transactions among the first `n` one that no other's next lock comes after. */
  lemma {:induction false} LastInOrder(ts: seq<Transaction>, n: nat) returns (i: nat)
    requires n <= |ts| && exists k :: 0 <= k < n && Unfinished(ts[k])
    ensures i < n && Unfinished(ts[i])
    ensures forall k | 0 <= k < n && Unfinished(ts[k]) :: !Before(Next(ts, i), Next(ts, k))
  {
    var last := n - 1;
    if exists k :: 0 <= k < last && Unfinished(ts[k]) {
      i := LastInOrder(ts, last);
      if Unfinished(ts[last]) && Before(Next(ts, i), Next(ts, last)) {
        forall k | 0 <= k < n && Unfinished(ts[k]) ensures !Before(Next(ts, last), Next(ts, k)) {
          NotBeforeItself(Next(ts, last), Next(ts, k));
          if Before(Next(ts, last), Next(ts, k)) {
            BeforeGoesOn(Next(ts, i), Next(ts, last), Next(ts, k));
          }
        }
        i := last;
      }
    } else {
      i := last;
      NotBeforeItself(Next(ts, i), Next(ts, i));
    }
  }

  /** While one is unfinished, one can go on. */
  lemma SomeCanGoOn(m: Merging, ts: seq<Transaction>) returns (i: nat)
    requires OneKeyEach(m) && Sound(m, ts) && exists k :: 0 <= k < |ts| && Unfinished(ts[k])
    ensures CanGoOn(m, ts, i)
  {
    i := LastInOrder(ts, |ts|);
    if j :| 0 <= j < |ts| && WaitsFor(m, ts, i, j) {
      if k :| 0 <= k < |ts| && WaitsFor(m, ts, j, k) {
        WaitsForLater(m, ts, i, j, k);
        assert false;
      }
      i := j;
    }
  }

  function Left(ts: seq<Transaction>): nat {
    if ts == [] then 0
    else Left(ts[1..]) + if Unfinished(ts[0]) then |ts[0].locks| - ts[0].taken else 0
  }

  lemma {:induction false} LeftDrops(ts: seq<Transaction>, i: nat)
    requires i < |ts| && Unfinished(ts[i])
    ensures Left(GoesOn(ts, i)) < Left(ts)
    decreases |ts|
  {
    if i > 0 {
      LeftDrops(ts[1..], i - 1);
      assert GoesOn(ts, i)[1..] == GoesOn(ts[1..], i - 1);
    }
  }

  predicate AllDone(ts: seq<Transaction>) {
    forall i | 0 <= i < |ts| :: !Unfinished(ts[i])
  }

  lemma {:induction false} SoundFinishes(m: Merging, ts: seq<Transaction>)
      returns (steps: seq<nat>, end: seq<Transaction>)
    requires OneKeyEach(m) && Sound(m, ts)
    ensures IsRun(m, ts, steps, end) && |end| == |ts| && AllDone(end)
    decreases Left(ts)
  {
    if exists k :: 0 <= k < |ts| && Unfinished(ts[k]) {
      var i := SomeCanGoOn(m, ts);
      StaysSound(m, ts, i);
      LeftDrops(ts, i);
      steps, end := SoundFinishes(m, GoesOn(ts, i));
      assert ([i] + steps)[1..] == steps;
      steps := [i] + steps;
    } else {
      steps, end := [], ts;
    }
  }

  // ---- Batches in opposite orders

  lemma {:induction false} RunBoth(
      m: Merging, a: seq<Transaction>, first: seq<nat>, b: seq<Transaction>, second: seq<nat>, c: seq<Transaction>)
    requires IsRun(m, a, first, b) && IsRun(m, b, second, c)
    ensures IsRun(m, a, first + second, c)
    decreases |first|
  {
    if first == [] {
      assert first + second == second;
    } else {
      RunBoth(m, GoesOn(a, first[0]), first[1..], b, second, c);
      assert (first + second)[1..] == first[1..] + second;
    }
  }

  /** Whether a transaction has yet to take a lock on the node. */
  predicate Needs(m: Merging, t: Transaction, n: NodeId) {
    exists i | t.taken <= i < |t.locks| :: NodeOf(m, t.locks[i]) == n
  }

  /** One of two that needs what the other holds goes on until it waits for it, if not for that lock for another. */
  lemma {:induction false} GoesOnUntilItWaits(m: Merging, ts: seq<Transaction>, i: nat, j: nat, n: NodeId)
      returns (steps: seq<nat>, end: seq<Transaction>)
    requires |ts| == 2 && i < 2 && j < 2 && i != j
    requires Needs(m, ts[i], n) && Holds(m, ts[j], n)
    ensures IsRun(m, ts, steps, end) && |end| == 2 && end[j] == ts[j] && WaitsFor(m, end, i, j)
    ensures end[i].locks == ts[i].locks && end[i].taken >= ts[i].taken
    decreases |ts[i].locks| - ts[i].taken
  {
    if WaitsFor(m, ts, i, j) {
      steps, end := [], ts;
    } else {
      assert CanGoOn(m, ts, i);
      var to := GoesOn(ts, i);
      assert Needs(m, to[i], n);
      steps, end := GoesOnUntilItWaits(m, to, i, j, n);
      assert ([i] + steps)[1..] == steps;
      steps := [i] + steps;
    }
  }

  /** Two batches that have yet to write, each of which first writes a node the other writes later. */
  predicate AreOpposed(m: Merging, ts: seq<Transaction>) {
    && |ts| == 2 && ts[0].taken == 0 && ts[1].taken == 0 && ts[0].locks != [] && ts[1].locks != []
    && NodeOf(m, ts[0].locks[0]) != NodeOf(m, ts[1].locks[0])
    && Needs(m, ts[0], NodeOf(m, ts[1].locks[0])) && Needs(m, ts[1], NodeOf(m, ts[0].locks[0]))
  }

  /** What they come to: each waits for the other. */
  predicate AreStuck(m: Merging, ts: seq<Transaction>) {
    |ts| == 2 && WaitsFor(m, ts, 0, 1) && WaitsFor(m, ts, 1, 0)
  }

  lemma OpposedHasMore(m: Merging, t: Transaction, n: NodeId)
    requires t.taken == 0 && t.locks != [] && NodeOf(m, t.locks[0]) != n && Needs(m, t, n)
    ensures var begun := Transaction(t.locks, 1);
      Needs(m, begun, n) && Holds(m, begun, NodeOf(m, t.locks[0]))
  {
    var i :| 0 <= i < |t.locks| && NodeOf(m, t.locks[i]) == n;
    assert i >= 1 && NodeOf(m, t.locks[0]) == NodeOf(m, t.locks[0]);
  }

  /** Two batches in opposite orders can each come to wait for the other. */
  lemma OpposedDeadlock(m: Merging, ts: seq<Transaction>) returns (steps: seq<nat>, end: seq<Transaction>)
    requires AreOpposed(m, ts)
    ensures IsRun(m, ts, steps, end) && AreStuck(m, end) && IsCircle(m, end, [0, 1, 0])
  {
    var x, y := NodeOf(m, ts[0].locks[0]), NodeOf(m, ts[1].locks[0]);
    OpposedHasMore(m, ts[0], y);
    OpposedHasMore(m, ts[1], x);
    var one := GoesOn(ts, 0);
    var both := GoesOn(one, 1);
    BothBegin(m, ts);
    var first, mid := GoesOnUntilItWaits(m, both, 0, 1, y);
    HoldsStill(m, both[0], mid[0], x);
    var second, last := GoesOnUntilItWaits(m, mid, 1, 0, x);
    HoldsStill(m, mid[1], last[1], NodeOf(m, Next(mid, 0)));
    assert Next(last, 0) == Next(mid, 0);
    RunBoth(m, both, first, mid, second, last);
    RunBoth(m, ts, [0, 1], both, first + second, last);
    steps, end := [0, 1] + (first + second), last;
  }

  lemma BothBegin(m: Merging, ts: seq<Transaction>)
    requires AreOpposed(m, ts)
    ensures IsRun(m, ts, [0, 1], GoesOn(GoesOn(ts, 0), 1))
  {
    var one := GoesOn(ts, 0);
    assert forall n :: !Holds(m, ts[1], n);
    assert CanGoOn(m, ts, 0) && CanGoOn(m, one, 1);
    assert [0, 1][1..] == [1] && [1][1..] == [];
    assert IsRun(m, one, [1], GoesOn(one, 1));
  }

  lemma HoldsStill(m: Merging, t: Transaction, to: Transaction, n: NodeId)
    requires Holds(m, t, n) && to.locks == t.locks && to.taken >= t.taken && Unfinished(to)
    ensures Holds(m, to, n)
  {
    var i :| 0 <= i < t.taken && NodeOf(m, t.locks[i]) == n;
    assert NodeOf(m, to.locks[i]) == n;
  }

  lemma StuckStay(m: Merging, ts: seq<Transaction>, steps: seq<nat>, end: seq<Transaction>)
    requires AreStuck(m, ts) && IsRun(m, ts, steps, end)
    ensures end == ts && !AllDone(end)
  {
    assert !CanGoOn(m, ts, 0) && !CanGoOn(m, ts, 1);
  }

  // ---- When no batches deadlock

  /** Whatever batches run at once, and however far they have come, none wait for one another in a circle. */
  ghost predicate NeverDeadlocks(m: Merging) {
    forall ts, steps, end, chain | Begins(m, ts) && IsRun(m, ts, steps, end) :: !IsCircle(m, end, chain)
  }

  /** And all can be run to their ends from there. */
  ghost predicate AlwaysFinishes(m: Merging) {
    forall ts, steps, now | Begins(m, ts) && IsRun(m, ts, steps, now) ::
      exists more, end :: IsRun(m, now, more, end) && AllDone(end)
  }

  /**
   * What a store's models must be like: no class is one of statements of their own, and rows of one node of one class.
   */
  ghost predicate OneOrder(m: Merging) {
    OneNameEach(m) && m.own == {}
  }

  /**
   * No batches ever deadlock, and all can always finish, if and only if no node is merged on under two class names and
   * no class has objects that are statements of their own.
   */
  lemma NoDeadlockIffOneOrder(m: Merging)
    requires IdsApart(m)
    ensures NeverDeadlocks(m) <==> OneOrder(m)
    ensures AlwaysFinishes(m) <==> OneOrder(m)
  {
    if OneOrder(m) {
      KeysAreNames(m);
      forall ts, steps, end, chain | Begins(m, ts) && IsRun(m, ts, steps, end) ensures !IsCircle(m, end, chain) {
        BeginsSound(m, ts);
        RunStaysSound(m, ts, steps, end);
        NoCircle(m, end, chain);
      }
      forall ts, steps, now | Begins(m, ts) && IsRun(m, ts, steps, now)
        ensures exists more, end :: IsRun(m, now, more, end) && AllDone(end)
      {
        var more, end := AllFinish(m, ts, steps, now);
      }
    } else {
      var ts := OpposedBatches(m);
      var steps, now := OpposedDeadlock(m, ts);
      forall more, end | IsRun(m, now, more, end) ensures !AllDone(end) {
        StuckStay(m, now, more, end);
      }
    }
  }

  /** However far any number of batches have come, all can be run to their ends. */
  lemma AllFinish(m: Merging, ts: seq<Transaction>, steps: seq<nat>, now: seq<Transaction>)
      returns (more: seq<nat>, end: seq<Transaction>)
    requires IdsApart(m) && OneOrder(m) && Begins(m, ts) && IsRun(m, ts, steps, now)
    ensures IsRun(m, now, more, end) && |end| == |now| && AllDone(end)
  {
    KeysAreNames(m);
    BeginsSound(m, ts);
    RunStaysSound(m, ts, steps, now);
    more, end := SoundFinishes(m, now);
  }

  /** Two saveAlls in opposite orders, where the models are not like that. */
  lemma OpposedBatches(m: Merging) returns (ts: seq<Transaction>)
    requires IdsApart(m) && !OneOrder(m)
    ensures Begins(m, ts) && AreOpposed(m, ts)
  {
    if m.own != {} {
      var name :| name in m.own;
      ts := OwnInTwoOrders(m, Item(name, "1", 0, true), Item(name, "2", 1, true));
    } else {
      var a, b, i, j :| a in m.rows && b in m.rows && m.at(Key(a, i)) == m.at(Key(b, j)) && a != b;
      TextsAreOrdered(a, b);
      if TextBefore(a, b) {
        ts := SharedNodeInTwoOrders(m, Key(a, i), Key(b, j));
      } else {
        ts := SharedNodeInTwoOrders(m, Key(b, j), Key(a, i));
      }
    }
  }

  // ---- Objects that are statements of their own

  lemma OwnBegin(m: Merging, a: Item, b: Item)
    requires a.alone && b.alone && a.name in m.own && b.name in m.own
    ensures IsNew(m, Transaction(OwnLocks(m, [a, b]), 0))
  {
    TwoApart(a, b);
    assert RowLocks([]) + OwnLocks(m, [a, b]) == OwnLocks(m, [a, b]);
    assert BeginsWith(m, Transaction(OwnLocks(m, [a, b]), 0), [a, b], []);
  }

  lemma TwoApart(a: Item, b: Item)
    requires a.alone && b.alone
    ensures Alone([a, b]) == [a, b] && IsBatch([a, b], [])
  {
    var both := [a, b];
    PartsMore(both, 0);
    PartsMore(both, 1);
    assert both[..0] == [] && both[..2] == both;
    assert Alone(both) == [a] + [b] && Fragments(both) == [];
    NoRows(both);
  }

  lemma NoRows(objects: seq<Item>)
    requires Fragments(objects) == []
    ensures IsBatch(objects, [])
  {}

  lemma OwnNeeds(m: Merging, a: Item, b: Item)
    ensures var t := Transaction(OwnLocks(m, [a, b]), 0);
      t.locks != [] && NodeOf(m, t.locks[0]) == m.at(KeyOf(a)) && Needs(m, t, m.at(KeyOf(b)))
  {
    assert [a, b][1..] == [b];
    var t := Transaction(OwnLocks(m, [a, b]), 0);
    assert t.locks == [OfOwn(m.at(KeyOf(a)))] + NodeLocks(m.also(a)) + OwnLocks(m, [b]);
    assert t.locks[1 + |m.also(a)|] == OfOwn(m.at(KeyOf(b)));
  }

  /** Two objects given in one order to one saveAll and in the other to another. */
  lemma OwnInTwoOrders(m: Merging, a: Item, b: Item) returns (ts: seq<Transaction>)
    requires IdsApart(m) && a.alone && b.alone && a.name in m.own && a.name == b.name && a.id != b.id
    ensures ts == [Transaction(OwnLocks(m, [a, b]), 0), Transaction(OwnLocks(m, [b, a]), 0)]
    ensures Begins(m, ts) && AreOpposed(m, ts)
  {
    ts := [Transaction(OwnLocks(m, [a, b]), 0), Transaction(OwnLocks(m, [b, a]), 0)];
    OwnBegin(m, a, b);
    OwnBegin(m, b, a);
    OwnNeeds(m, a, b);
    OwnNeeds(m, b, a);
    assert m.at(Key(a.name, a.id)) != m.at(Key(a.name, b.id));
    Opposed(m, ts[0], ts[1]);
  }

  /**
   * A class with a property bag: a saveAll of 1 and 2 of it beside one of 2 and 1, though no node is merged on under
   * two class names, come to wait for each other.
   */
  lemma BaggedFragmentsDeadlock(m: Merging) returns (ts: seq<Transaction>, steps: seq<nat>, end: seq<Transaction>)
    requires "A" in m.own && IdsApart(m) && forall it: Item :: m.also(it) == []
    ensures ts == [Transaction([OfOwn(m.at(Key("A", "1"))), OfOwn(m.at(Key("A", "2")))], 0),
                   Transaction([OfOwn(m.at(Key("A", "2"))), OfOwn(m.at(Key("A", "1")))], 0)]
    ensures Begins(m, ts) && IsRun(m, ts, steps, end) && IsCircle(m, end, [0, 1, 0])
  {
    var a, b := Item("A", "1", 0, true), Item("A", "2", 1, true);
    ts := OwnInTwoOrders(m, a, b);
    OnlyRoots(m, a, b);
    OnlyRoots(m, b, a);
    steps, end := OpposedDeadlock(m, ts);
  }

  lemma OnlyRoots(m: Merging, a: Item, b: Item)
    requires m.also(a) == [] && m.also(b) == []
    ensures OwnLocks(m, [a, b]) == [OfOwn(m.at(KeyOf(a))), OfOwn(m.at(KeyOf(b)))]
  {
    assert [a, b][1..] == [b] && [b][1..] == [];
    assert OwnLocks(m, [b]) == [OfOwn(m.at(KeyOf(b)))];
  }

  // ---- Rows of one node

  lemma {:induction false} LongerComesAfter(text: string)
    ensures TextBefore(text, text + "0")
  {
    if text != "" {
      LongerComesAfter(text[1..]);
      assert (text + "0")[1..] == text[1..] + "0";
    }
  }

  lemma TwoIds(a: Item, b: Item)
    requires !a.alone && !b.alone
    ensures Fragments([a, b]) == [a, b] && Alone([a, b]) == []
    ensures forall name, id ::
      OfId([a, b], name, id) == (if HasId(a, name, id) then [a] else []) + (if HasId(b, name, id) then [b] else [])
  {
    assert [a, b][..1] == [a] && [a][..0] == [];
    assert Fragments([a]) == [a] && Alone([a]) == [];
    assert forall name, id :: OfId([a], name, id) == if HasId(a, name, id) then [a] else [];
  }

  /** A batch of two rows in their order. */
  lemma TwoRowsBegin(m: Merging, a: Key, b: Key)
    requires Precedes(a, b) && a.name in m.rows && b.name in m.rows
    ensures IsNew(m, Transaction([OfRow(a), OfRow(b)], 0))
  {
    var rows := [Item(a.name, a.id, 0, false), Item(b.name, b.id, 1, false)];
    TwoIds(rows[0], rows[1]);
    KeysAreOrdered(a, b);
    assert RowLocks(rows) + OwnLocks(m, []) == [OfRow(a), OfRow(b)];
    assert BeginsWith(m, Transaction([OfRow(a), OfRow(b)], 0), rows, rows);
  }

  /** Two batches that write two nodes in opposite orders, each in the order of its rows. */
  lemma RowsInTwoOrders(m: Merging, a: Key, b: Key, c: Key, d: Key) returns (ts: seq<Transaction>)
    requires Precedes(a, b) && Precedes(c, d) && {a.name, b.name, c.name, d.name} <= m.rows
    requires m.at(a) == m.at(d) && m.at(b) == m.at(c) && m.at(a) != m.at(b)
    ensures ts == [Transaction([OfRow(a), OfRow(b)], 0), Transaction([OfRow(c), OfRow(d)], 0)]
    ensures Begins(m, ts) && AreOpposed(m, ts)
  {
    ts := [Transaction([OfRow(a), OfRow(b)], 0), Transaction([OfRow(c), OfRow(d)], 0)];
    TwoRowsBegin(m, a, b);
    TwoRowsBegin(m, c, d);
    RowsNeed(m, a, b);
    RowsNeed(m, c, d);
    Opposed(m, ts[0], ts[1]);
  }

  lemma Opposed(m: Merging, t: Transaction, u: Transaction)
    requires IsNew(m, t) && IsNew(m, u) && t.taken == 0 && u.taken == 0 && t.locks != [] && u.locks != []
    requires NodeOf(m, t.locks[0]) != NodeOf(m, u.locks[0])
    requires Needs(m, t, NodeOf(m, u.locks[0])) && Needs(m, u, NodeOf(m, t.locks[0]))
    ensures Begins(m, [t, u]) && AreOpposed(m, [t, u])
  {}

  lemma RowsNeed(m: Merging, a: Key, b: Key)
    ensures Needs(m, Transaction([OfRow(a), OfRow(b)], 0), m.at(b))
  {
    assert NodeOf(m, [OfRow(a), OfRow(b)][1]) == m.at(b);
  }

  /** One node under two class names, and another under the first of them. */
  lemma SharedNodeInTwoOrders(m: Merging, k: Key, l: Key) returns (ts: seq<Transaction>)
    requires IdsApart(m) && k.name in m.rows && l.name in m.rows
    requires TextBefore(k.name, l.name) && m.at(k) == m.at(l)
    ensures Begins(m, ts) && AreOpposed(m, ts)
  {
    var other := Key(k.name, k.id + "0");
    LongerComesAfter(k.id);
    TextsAreOrdered(k.id, other.id);
    assert k == Key(k.name, k.id) && m.at(k) != m.at(other);
    ts := RowsInTwoOrders(m, k, other, other, l);
  }

  /**
   * A class and one below it: a row of either matches a node that carries the labels of both. A saveAll of employee 1
   * and person 2 beside one of employee 2 and person 1, each in its order, come to wait for each other.
   */
  lemma EmployeesAndPersonsDeadlock(m: Merging)
      returns (ts: seq<Transaction>, steps: seq<nat>, end: seq<Transaction>)
    requires {"Employee", "Person"} <= m.rows
    requires forall id :: m.at(Key("Employee", id)) == m.at(Key("Person", id))
    requires m.at(Key("Person", "1")) != m.at(Key("Person", "2"))
    ensures ts == [Transaction([OfRow(Key("Employee", "1")), OfRow(Key("Person", "2"))], 0),
                   Transaction([OfRow(Key("Employee", "2")), OfRow(Key("Person", "1"))], 0)]
    ensures Begins(m, ts) && IsRun(m, ts, steps, end) && IsCircle(m, end, [0, 1, 0])
  {
    assert TextBefore("Employee", "Person");
    ts := RowsInTwoOrders(
      m, Key("Employee", "1"), Key("Person", "2"), Key("Employee", "2"), Key("Person", "1"));
    steps, end := OpposedDeadlock(m, ts);
  }
}
