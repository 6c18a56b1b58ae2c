/**
 * Which lowercased copies every node of a label is known to have (src/schema/LowerCopyCatalog.ts:158-258), while other
 * clients go on saving between any two of its statements.
 */
module LowerCopyCatalogs {
  import opened Wrappers
  import opened Truths
  import opened LowerCopies

  /** A label and a property. */
  type Key = (string, string)

  function OutOfStep(lower: string -> string, nodes: Nodes, key: Key): set<nat> {
    set id | id in nodes && key.0 in nodes[id].labels && !InStep(lower, nodes[id], key.1)
  }

  function RunAll(lower: string -> string, nodes: Nodes, ws: seq<Write>): Nodes
    decreases |ws|
  {
    if ws == [] then nodes else RunAll(lower, Run(lower, nodes, ws[0]), ws[1..])
  }

  /** Each write is run on what those before it left. */
  lemma {:induction false} LastOfAll(lower: string -> string, nodes: Nodes, ws: seq<Write>, w: Write)
    ensures RunAll(lower, nodes, ws + [w]) == Run(lower, RunAll(lower, nodes, ws), w)
    decreases |ws|
  {
    if ws == [] {
      assert [w][1..] == [] && RunAll(lower, Run(lower, nodes, w), []) == Run(lower, nodes, w);
    } else {
      assert (ws + [w])[1..] == ws[1..] + [w];
      LastOfAll(lower, Run(lower, nodes, ws[0]), ws[1..], w);
    }
  }

  ghost predicate AllMind(ws: seq<Write>, key: Key) {
    !IsCopy(key.1) && forall i | 0 <= i < |ws| :: ThroughModel(ws[i]) && Minds(ws[i], key.0, key.1)
  }

  /** Saves put nodes in step and never out of it. */
  lemma {:induction false} SavesKeepStep(lower: string -> string, nodes: Nodes, ws: seq<Write>, key: Key)
    requires AllMind(ws, key)
    ensures OutOfStep(lower, RunAll(lower, nodes, ws), key) <= OutOfStep(lower, nodes, key)
    decreases |ws|
  {
    if ws != [] {
      var next := Run(lower, nodes, ws[0]);
      forall id <- OutOfStep(lower, next, key) ensures id in OutOfStep(lower, nodes, key) {
        if id !in OutOfStep(lower, nodes, key) {
          WriteKeepsStep(lower, nodes, ws[0], key.0, key.1, id);
          assert false;
        }
      }
      SavesKeepStep(lower, next, ws[1..], key);
    }
  }

  /** One batch: each of the chosen nodes is given its copy. */
  function Filled(lower: string -> string, nodes: Nodes, property: string, chosen: set<nat>): Nodes {
    map id | id in nodes :: if id in chosen then SetCopies(lower, nodes[id], [property]) else nodes[id]
  }

  lemma FilledIsInStep(lower: string -> string, nodes: Nodes, property: string, chosen: set<nat>, key: Key)
    requires !IsCopy(property) && !IsCopy(key.1)
    ensures OutOfStep(lower, Filled(lower, nodes, property, chosen), key)
      == OutOfStep(lower, nodes, key) - if key.1 == property then chosen else {}
  {
    forall id <- nodes ensures id in OutOfStep(lower, Filled(lower, nodes, property, chosen), key)
      <==> id in OutOfStep(lower, nodes, key) && !(key.1 == property && id in chosen)
    {
      CopiesAreSet(lower, nodes[id], [property], key.1);
    }
  }

  // ---- The store

  /**
   * A store other clients write to: `others(k)` is what they have run before its k-th statement for the catalog, and
   * `readable(k)` whether a read of the records succeeds then.
   */
  class Database {
    const lower: string -> string
    const others: nat -> seq<Write>
    const readable: nat -> bool
    ghost const keys: set<Key>
    var nodes: Nodes
    var records: set<Key>
    var clock: nat

    constructor (
        lower: string -> string, others: nat -> seq<Write>, readable: nat -> bool, ghost keys: set<Key>, nodes: Nodes)
      requires forall k, key <- keys :: AllMind(others(k), key)
      ensures this.lower == lower && this.others == others && this.readable == readable && this.keys == keys
      ensures this.nodes == nodes && records == {} && Valid()
    {
      this.lower, this.others, this.readable, this.keys := lower, others, readable, keys;
      this.nodes, records, clock := nodes, {}, 0;
    }

    /** The properties models keep copies of are kept by every save, and what is recorded is so. */
    ghost predicate Valid()
      reads this
    {
      && (forall k, key <- keys :: AllMind(others(k), key))
      && records <= keys
      && forall key <- records :: InStepFor(key)
    }

    ghost predicate InStepFor(key: Key)
      reads this
    {
      OutOfStep(lower, nodes, key) == {}
    }

    /** What other clients write before the next statement. */
    method OthersWrite()
      requires Valid()
      modifies this
      ensures Valid() && records == old(records)
      ensures nodes == RunAll(lower, old(nodes), others(old(clock))) && clock == old(clock) + 1
      ensures forall key <- keys :: OutOfStep(lower, nodes, key) <= OutOfStep(lower, old(nodes), key)
    {
      forall key <- keys ensures
        OutOfStep(lower, RunAll(lower, nodes, others(clock)), key) <= OutOfStep(lower, nodes, key)
      {
        SavesKeepStep(lower, nodes, others(clock), key);
      }
      nodes := RunAll(lower, nodes, others(clock));
      clock := clock + 1;
    }

    /** Some of the nodes, whichever the engine comes to first. */
    method AtMost(out: set<nat>, batch: nat) returns (chosen: set<nat>)
      ensures chosen <= out && |chosen| <= batch
      ensures |chosen| < batch ==> chosen == out
    {
      chosen := {};
      while |chosen| < batch && chosen != out
        invariant chosen <= out && |chosen| <= batch
        decreases out - chosen
      {
        assert out - chosen != {} by {
          assert chosen + (out - chosen) == out;
        }
        var id :| id in out - chosen;
        chosen := chosen + {id};
      }
    }

    /** Writes the copy on at most `batch` of the nodes out of step, and gives how many it wrote. */
    method Fill(key: Key, batch: nat) returns (written: nat)
      requires Valid() && key in keys
      modifies this
      ensures Valid() && records == old(records)
      ensures forall k <- keys :: OutOfStep(lower, nodes, k) <= OutOfStep(lower, old(nodes), k)
      ensures written <= batch && |OutOfStep(lower, nodes, key)| + written <= |OutOfStep(lower, old(nodes), key)|
      ensures written < batch ==> InStepFor(key)
    {
      OthersWrite();
      assert key.1 == key.1 && AllMind(others(0), key);
      var out := set id | id in nodes && key.0 in nodes[id].labels && !InStep(lower, nodes[id], key.1);
      SubsetSize(out, OutOfStep(lower, old(nodes), key));
      var chosen := AtMost(out, batch);
      written := |chosen|;
      forall k <- keys ensures OutOfStep(lower, Filled(lower, nodes, key.1, chosen), k)
        == OutOfStep(lower, nodes, k) - if k.1 == key.1 then chosen else {}
      {
        assert AllMind(others(0), k);
        FilledIsInStep(lower, nodes, key.1, chosen, k);
      }
      assert |out - chosen| == |out| - |chosen|;
      nodes := Filled(lower, nodes, key.1, chosen);
    }

    /** Records that every node of the label has the copy, once however often it is run. */
    method Record(key: Key)
      requires Valid() && key in keys && InStepFor(key)
      modifies this
      ensures Valid() && records == old(records) + {key}
      ensures forall k <- keys :: OutOfStep(lower, nodes, k) <= OutOfStep(lower, old(nodes), k)
    {
      OthersWrite();
      records := records + {key};
    }

    method Read() returns (entries: Option<set<Key>>)
      requires Valid()
      modifies this
      ensures Valid() && records == old(records)
      ensures entries == if readable(old(clock)) then Some(records) else None
      ensures forall k <- keys :: OutOfStep(lower, nodes, k) <= OutOfStep(lower, old(nodes), k)
    {
      var ok := readable(clock);
      OthersWrite();
      entries := if ok then Some(records) else None;
    }
  }

  lemma SubsetSize(a: set<nat>, b: set<nat>)
    requires a <= b
    ensures |a| <= |b|
  {
    assert b == a + (b - a);
  }

  // ---- The catalog

  datatype Entries = Entries(keys: set<Key>, at: nat)

  class LowerCopyCatalog {
    const db: Database
    const batch: nat
    const maxAge: nat
    var recorded: set<Key>
    var read: Option<Entries>
    /** The moment a read of the records now under way was begun. */
    var reading: Option<nat>

    constructor (db: Database, batch: nat, maxAge: nat)
      requires db.Valid()
      ensures this.db == db && this.batch == batch && this.maxAge == maxAge
      ensures recorded == {} && read == None && Valid()
    {
      this.db, this.batch, this.maxAge := db, batch, maxAge;
      recorded, read, reading := {}, None, None;
    }

    /** Everything the catalog takes for filled in is in step now, whatever the others wrote since it learnt of it. */
    ghost predicate Valid()
      reads this, db
    {
      && db.Valid()
      && recorded <= db.keys && Known() <= db.keys
      && forall key <- recorded + Known() :: db.InStepFor(key)
    }

    function Known(): set<Key>
      reads this
    {
      if read.Some? then read.value.keys else {}
    }

    /** A read begun in the background ends: one that fails leaves what was read last. */
    method EndReading()
      requires Valid() && reading.Some?
      modifies this, db
      ensures Valid() && reading == None && recorded == old(recorded) && read.Some?
      ensures Known() == if db.readable(old(db.clock)) then old(db.records) else old(Known())
      ensures read.value.at == old(reading).value && db.records == old(db.records)
      ensures forall k <- db.keys :: OutOfStep(db.lower, db.nodes, k) <= OutOfStep(db.lower, old(db.nodes), k)
    {
      var known := Known();
      var entries := db.Read();
      forall key <- recorded + known ensures db.InStepFor(key) {
        assert key in db.keys;
      }
      read := Some(Entries(if entries.Some? then entries.value else known, reading.value));
      reading := None;
    }

    /** What a lookup goes by: what was read last, or, where nothing was, what a read now gives, if it can. */
    function GoneBy(): set<Key>
      reads this, db
    {
      recorded + if read.Some? then Known() else if db.readable(db.clock) then db.records else {}
    }

    method ReadAgain()
      modifies this`reading
      ensures reading == if old(reading).Some? then old(reading) else Some(db.clock)
    {
      if reading.None? {
        reading := Some(db.clock);
      }
    }

    /**
     * Whether every node of the label is known to have the copy: never said of one that has not, and said of each
     * recorded where the record could be read. What was read a while ago is read again meanwhile.
     */
    method FilledIn(key: Key) returns (known: bool)
      requires Valid()
      modifies this, db
      ensures Valid() && recorded == old(recorded) && db.records == old(db.records)
      ensures known ==> key in db.keys && db.InStepFor(key)
      ensures known <==> key in old(GoneBy())
      ensures GoneBy() == old(GoneBy())
      ensures old(read).Some? ==> read == old(read)
      ensures old(reading).None? && reading.Some? <==>
        key !in recorded && old(reading).None? && old(read).Some? && db.clock >= old(read).value.at + maxAge
      ensures forall k <- db.keys :: OutOfStep(db.lower, db.nodes, k) <= OutOfStep(db.lower, old(db.nodes), k)
    {
      if key in recorded {
        return true;
      }
      if read.None? {
        ReadAgain();
        EndReading();
      } else if db.clock >= read.value.at + maxAge {
        ReadAgain();
      }
      return key in read.value.keys;
    }

    predicate OnSome(labels: seq<string>, property: string, keys: set<Key>) {
      exists l <- labels :: (l, property) in keys
    }

    /** The properties whose copy every node of one of the labels is known to have. */
    method FilledAmong(labels: seq<string>, properties: seq<string>) returns (filled: set<string>)
      requires Valid()
      modifies this, db
      ensures Valid()
      ensures forall p <- filled :: p in properties && exists l <- labels :: (l, p) in db.keys && db.InStepFor((l, p))
      ensures forall p <- properties :: p in filled <==> OnSome(labels, p, old(GoneBy()))
    {
      filled := {};
      ghost var told := GoneBy();
      for i := 0 to |properties|
        invariant Valid() && GoneBy() == told
        invariant forall p <- filled :: p in properties && OnSome(labels, p, told)
        invariant forall p <- properties[..i] :: OnSome(labels, p, told) ==> p in filled
      {
        for j := 0 to |labels|
          invariant Valid() && GoneBy() == told
          invariant forall p <- filled :: p in properties && OnSome(labels, p, told)
          invariant forall p <- properties[..i] :: OnSome(labels, p, told) ==> p in filled
          invariant properties[i] in filled || forall l <- labels[..j] :: (l, properties[i]) !in told
        {
          var known := FilledIn((labels[j], properties[i]));
          if known {
            filled := filled + {properties[i]};
            break;
          }
        }
      }
    }

    function Keys(onLabel: string, properties: seq<string>): set<Key> {
      set p | p in properties :: (onLabel, p)
    }

    lemma KeysMore(onLabel: string, properties: seq<string>, i: nat)
      requires i < |properties|
      ensures Keys(onLabel, properties[..i + 1]) == Keys(onLabel, properties[..i]) + {(onLabel, properties[i])}
      ensures properties[..|properties|] == properties
    {
      assert properties[..i + 1] == properties[..i] + [properties[i]];
    }

    /**
     * Fills in the copies of the properties on the nodes of the label, and records each. It ends, whatever is saved
     * meanwhile, and then every node of the label has them. A record that cannot be read fails the call, and nothing
     * is filled in or recorded.
     */
    method FillIn(onLabel: string, properties: seq<string>, again: bool) returns (ok: bool)
      requires Valid() && batch >= 1
      requires forall p <- properties :: (onLabel, p) in db.keys
      modifies this, db
      ensures Valid()
      ensures ok ==> forall p <- properties :: db.InStepFor((onLabel, p)) && (onLabel, p) in db.records
      ensures ok <==> again || properties == [] || db.readable(old(db.clock))
      ensures var asked := Keys(onLabel, properties);
        if !ok then recorded == old(recorded) && db.records == old(db.records)
        else
          && db.records == old(db.records) + asked
          && recorded == old(recorded) + if again then asked else asked - old(db.records)
    {
      if properties == [] {
        return true;
      }
      var stored: set<Key> := {};
      if !again {
        var entries := db.Read();
        if entries.None? {
          return false;
        }
        stored := entries.value;
      }
      for i := 0 to |properties|
        invariant Valid() && stored == if again then {} else old(db.records)
        invariant db.records == old(db.records) + Keys(onLabel, properties[..i])
        invariant recorded == old(recorded) + (Keys(onLabel, properties[..i]) - stored)
      {
        var key := (onLabel, properties[i]);
        KeysMore(onLabel, properties, i);
        if again || key !in stored {
          FillOne(key);
        }
      }
      return true;
    }

    method FillOne(key: Key)
      requires Valid() && batch >= 1 && key in db.keys
      modifies this, db
      ensures Valid() && recorded == old(recorded) + {key} && db.records == old(db.records) + {key}
    {
      var written := batch;
      while written >= batch
        invariant Valid() && recorded == old(recorded) && db.records == old(db.records)
        invariant read == old(read) && reading == old(reading)
        invariant written < batch ==> db.InStepFor(key)
        decreases |OutOfStep(db.lower, db.nodes, key)|, if written >= batch then 1 else 0
      {
        written := db.Fill(key, batch);
        forall k <- recorded + Known() ensures db.InStepFor(k) {
          assert k in db.keys;
        }
      }
      db.Record(key);
      forall k <- recorded + Known() + {key} ensures db.InStepFor(k) {
        assert k in db.keys;
      }
      recorded := recorded + {key};
    }
  }

  // ---- Lookups

  /** Reading through the copies a catalog says are filled in never changes an answer about a node of the model. */
  lemma LookupIsTheSame(
      e: Engine, scope: Scope, nodes: Nodes, labels: seq<string>, filled: set<string>, c: Condition, id: nat)
    requires forall p <- filled :: exists l <- labels :: OutOfStep(e.lower, nodes, (l, p)) == {}
    requires id in nodes && forall l <- labels :: l in nodes[id].labels
    ensures Eval(e, scope, nodes[id], Rewritten(e.model, scope, filled, c)) == Eval(e, scope, nodes[id], c)
  {
    forall p <- filled ensures InStep(e.lower, nodes[id], p) {
      var l :| l in labels && OutOfStep(e.lower, nodes, (l, p)) == {};
      assert id !in OutOfStep(e.lower, nodes, (l, p));
    }
    RewriteKeepsTheAnswer(e, scope, filled, nodes[id], c);
  }
}
