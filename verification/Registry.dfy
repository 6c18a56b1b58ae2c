/**
 * The registry of models (src/model/ModelRegistry.ts:96-142, 226-251, 282-306, 325-350, 396-414). A view is cached
 * before its relationships are resolved, so that views may lead back to themselves; what a failed call cached is taken
 * out again.
 */
module Registry {
  import opened Wrappers

  type ClassId = nat

  /** A relationship field of a view: the class it holds, where that can be told, and how deep it goes. */
  datatype Field = Field(target: Option<ClassId>, maxDepth: nat)

  /** What a class declares. `ok` is whether what it says of itself alone is in order. */
  datatype Decl =
    | FragmentDecl(ok: bool)
    | RelationshipFragmentDecl(ok: bool, target: Option<ClassId>)
    | ViewDecl(ok: bool, root: Option<ClassId>, relationships: seq<Field>, paths: seq<Option<ClassId>>)
    | NoDecl

  /** The classes there are, and what each declares. */
  datatype Classes = Classes(all: set<ClassId>, decl: ClassId -> Decl)

  function Target(target: Option<ClassId>): set<ClassId> {
    if target.Some? then {target.value} else {}
  }

  function FieldRefs(fields: seq<Field>): set<ClassId> {
    if fields == [] then {} else FieldRefs(fields[..|fields| - 1]) + Target(fields[|fields| - 1].target)
  }

  function PathRefs(paths: seq<Option<ClassId>>): set<ClassId> {
    if paths == [] then {} else PathRefs(paths[..|paths| - 1]) + Target(paths[|paths| - 1])
  }

  /** The classes a class refers to. */
  function Refs(decl: Decl): set<ClassId> {
    match decl
    case RelationshipFragmentDecl(_, target) => Target(target)
    case ViewDecl(_, root, fields, paths) => Target(root) + FieldRefs(fields) + PathRefs(paths)
    case _ => {}
  }

  ghost predicate Whole(cs: Classes) {
    forall c {:trigger Refs(cs.decl(c))} | c in cs.all :: Refs(cs.decl(c)) <= cs.all
  }

  // ---- What makes a class valid

  predicate FieldIsOk(cs: Classes, field: Field) {
    && field.target.Some?
    && !cs.decl(field.target.value).NoDecl?
    && !(cs.decl(field.target.value).RelationshipFragmentDecl? && field.maxDepth > 1)
  }

  predicate IsFragment(cs: Classes, target: Option<ClassId>) {
    target.Some? && cs.decl(target.value).FragmentDecl?
  }

  predicate FieldsAreOk(cs: Classes, fields: seq<Field>) {
    forall i | 0 <= i < |fields| :: FieldIsOk(cs, fields[i])
  }

  predicate PathsAreOk(cs: Classes, paths: seq<Option<ClassId>>) {
    forall i | 0 <= i < |paths| :: IsFragment(cs, paths[i])
  }

  /** The class is in order, and what it refers to is of the right kind. */
  predicate IsOk(cs: Classes, decl: Decl) {
    match decl
    case FragmentDecl(ok) => ok
    case RelationshipFragmentDecl(ok, target) =>
      ok && target.Some? && (cs.decl(target.value).FragmentDecl? || cs.decl(target.value).ViewDecl?)
    case ViewDecl(ok, root, fields, paths) =>
      ok && IsFragment(cs, root) && FieldsAreOk(cs, fields) && PathsAreOk(cs, paths)
    case NoDecl => false
  }

  /** In order, and all it refers to among `known`. */
  predicate IsIn(cs: Classes, c: ClassId, known: set<ClassId>) {
    IsOk(cs, cs.decl(c)) && Refs(cs.decl(c)) <= known
  }

  /** A set of classes each in order, that refer to one another alone. */
  ghost predicate IsClosed(cs: Classes, s: set<ClassId>) {
    forall c {:trigger IsIn(cs, c, s)} | c in s :: IsIn(cs, c, s)
  }

  /** The classes of some such set. */
  ghost function Buildable(cs: Classes): set<ClassId> {
    set c | c in cs.all && exists s :: s <= cs.all && IsClosed(cs, s) && c in s
  }

  ghost predicate IsLargest(cs: Classes, s: set<ClassId>) {
    IsClosed(cs, s) && forall t {:trigger IsClosed(cs, t)} | t <= cs.all && IsClosed(cs, t) :: t <= s
  }

  /** They are such a set themselves, the largest one. */
  lemma BuildableIsLargest(cs: Classes)
    ensures IsLargest(cs, Buildable(cs))
  {
    forall c <- Buildable(cs) ensures IsIn(cs, c, Buildable(cs)) {
      var t :| t <= cs.all && IsClosed(cs, t) && c in t;
      assert IsIn(cs, c, t);
      forall r <- Refs(cs.decl(c)) ensures r in Buildable(cs) {
        assert r in t;
      }
    }
  }

  lemma {:induction false} FieldRefIs(fields: seq<Field>, i: nat)
    requires i < |fields|
    ensures Target(fields[i].target) <= FieldRefs(fields)
  {
    if i < |fields| - 1 {
      FieldRefIs(fields[..|fields| - 1], i);
    }
  }

  lemma {:induction false} PathRefIs(paths: seq<Option<ClassId>>, i: nat)
    requires i < |paths|
    ensures Target(paths[i]) <= PathRefs(paths)
  {
    if i < |paths| - 1 {
      PathRefIs(paths[..|paths| - 1], i);
    }
  }

  lemma OneMoreField(cs: Classes, fields: seq<Field>, i: nat)
    requires i < |fields| && FieldsAreOk(cs, fields[..i])
    ensures FieldIsOk(cs, fields[i]) ==> FieldsAreOk(cs, fields[..i + 1])
    ensures FieldRefs(fields[..i + 1]) == FieldRefs(fields[..i]) + Target(fields[i].target)
  {
    assert fields[..i + 1][..i] == fields[..i];
  }

  lemma OneMorePath(cs: Classes, paths: seq<Option<ClassId>>, i: nat)
    requires i < |paths| && PathsAreOk(cs, paths[..i])
    ensures IsFragment(cs, paths[i]) ==> PathsAreOk(cs, paths[..i + 1])
    ensures PathRefs(paths[..i + 1]) == PathRefs(paths[..i]) + Target(paths[i])
  {
    assert paths[..i + 1][..i] == paths[..i];
  }

  /** No cycle of relationship fragments alone: each that leads to another leads to one of a lower rank. */
  ghost predicate Ranked(cs: Classes, rank: ClassId -> nat) {
    forall c {:trigger rank(c)} | c in cs.all && cs.decl(c).RelationshipFragmentDecl? && cs.decl(c).target.Some? ::
      cs.decl(cs.decl(c).target.value).RelationshipFragmentDecl? ==> rank(cs.decl(c).target.value) < rank(c)
  }

  // ---- What the caches hold

  /** What was cached while the outermost view was built. */
  datatype Built = BuiltView(view: ClassId) | BuiltRelationshipFragment(fragment: ClassId)

  datatype Caches = Caches(fragments: set<ClassId>, relationshipFragments: set<ClassId>, views: set<ClassId>) {
    function All(): set<ClassId> {
      fragments + relationshipFragments + views
    }
  }

  ghost predicate Kinds(cs: Classes, caches: Caches) {
    && caches.All() <= cs.all
    && (forall c <- caches.fragments :: cs.decl(c).FragmentDecl?)
    && (forall c <- caches.relationshipFragments :: cs.decl(c).RelationshipFragmentDecl?)
    && forall c <- caches.views :: cs.decl(c).ViewDecl?
  }

  ghost predicate AllIn(cs: Classes, known: set<ClassId>, pending: set<ClassId>) {
    forall c {:trigger IsIn(cs, c, known)} | c in known :: c in pending || IsIn(cs, c, known)
  }

  /** Every cached class that is not pending is valid, and refers to cached ones alone. */
  ghost predicate Fits(cs: Classes, caches: Caches, pending: set<ClassId>) {
    Kinds(cs, caches) && pending <= caches.views && AllIn(cs, caches.All(), pending)
  }

  function LoggedViews(log: seq<Built>): set<ClassId> {
    if log == [] then {}
    else
      var last := log[|log| - 1];
      LoggedViews(log[..|log| - 1]) + if last.BuiltView? then {last.view} else {}
  }

  function LoggedFragments(log: seq<Built>): set<ClassId> {
    if log == [] then {}
    else
      var last := log[|log| - 1];
      LoggedFragments(log[..|log| - 1]) + if last.BuiltView? then {} else {last.fragment}
  }

  /** The log holds what has been cached since the caches were as they `were`, valid then on their own. */
  ghost predicate LogFits(cs: Classes, were: Caches, caches: Caches, log: seq<Built>) {
    && Fits(cs, were, {})
    && were.fragments <= caches.fragments
    && were.views !! LoggedViews(log) && caches.views == were.views + LoggedViews(log)
    && were.relationshipFragments !! LoggedFragments(log)
    && caches.relationshipFragments == were.relationshipFragments + LoggedFragments(log)
  }

  lemma OneMoreIn(cs: Classes, known: set<ClassId>, pending: set<ClassId>, c: ClassId)
    requires AllIn(cs, known, pending)
    ensures AllIn(cs, known + {c}, pending + {c})
    ensures IsIn(cs, c, known + {c}) ==> AllIn(cs, known + {c}, pending)
  {
    forall k <- known | k !in pending ensures IsIn(cs, k, known + {c}) {
      assert IsIn(cs, k, known);
    }
  }

  lemma LogMore(log: seq<Built>, b: Built)
    ensures LoggedViews(log + [b]) == LoggedViews(log) + if b.BuiltView? then {b.view} else {}
    ensures LoggedFragments(log + [b]) == LoggedFragments(log) + if b.BuiltView? then {} else {b.fragment}
  {
    assert (log + [b])[..|log|] == log;
  }

  lemma ViewIsIn(cs: Classes, caches: Caches, pending: set<ClassId>, c: ClassId)
    requires Fits(cs, caches, pending) && cs.decl(c).ViewDecl?
    requires var decl := cs.decl(c);
      && IsOk(cs, decl)
      && Target(decl.root) + (FieldRefs(decl.relationships) + PathRefs(decl.paths)) <= caches.All()
    ensures Fits(cs, caches, pending - {c})
  {
    assert IsIn(cs, c, caches.All());
  }

  lemma ViewLogged(cs: Classes, were: Caches, caches: Caches, log: seq<Built>, c: ClassId)
    requires LogFits(cs, were, caches, log) && c !in caches.views
    ensures LogFits(cs, were, caches.(views := caches.views + {c}), log + [BuiltView(c)])
  {
    LogMore(log, BuiltView(c));
  }

  lemma RelationshipFragmentLogged(cs: Classes, were: Caches, caches: Caches, log: seq<Built>, c: ClassId)
    requires LogFits(cs, were, caches, log) && c !in were.relationshipFragments
    ensures LogFits(cs, were, caches.(relationshipFragments := caches.relationshipFragments + {c}),
      log + [BuiltRelationshipFragment(c)])
  {
    LogMore(log, BuiltRelationshipFragment(c));
  }

  lemma OneFewer(all: set<ClassId>, views: set<ClassId>, c: ClassId)
    requires c in all && c !in views
    ensures all - (views + {c}) < all - views
  {
    assert c in all - views && c !in all - (views + {c});
  }

  lemma FragmentAdded(cs: Classes, caches: Caches, pending: set<ClassId>, c: ClassId)
    requires Fits(cs, caches, pending) && c in cs.all && cs.decl(c).FragmentDecl? && cs.decl(c).ok
    ensures Fits(cs, caches.(fragments := caches.fragments + {c}), pending)
  {
    OneMoreIn(cs, caches.All(), pending, c);
    assert caches.(fragments := caches.fragments + {c}).All() == caches.All() + {c};
  }

  lemma RelationshipFragmentAdded(cs: Classes, caches: Caches, pending: set<ClassId>, c: ClassId)
    requires Fits(cs, caches, pending) && c in cs.all && cs.decl(c).RelationshipFragmentDecl?
    requires IsIn(cs, c, caches.All())
    ensures Fits(cs, caches.(relationshipFragments := caches.relationshipFragments + {c}), pending)
  {
    OneMoreIn(cs, caches.All(), pending, c);
    assert caches.(relationshipFragments := caches.relationshipFragments + {c}).All() == caches.All() + {c};
  }

  lemma ViewAdded(cs: Classes, caches: Caches, pending: set<ClassId>, c: ClassId)
    requires Fits(cs, caches, pending) && c in cs.all && cs.decl(c).ViewDecl?
    ensures Fits(cs, caches.(views := caches.views + {c}), pending + {c})
  {
    OneMoreIn(cs, caches.All(), pending, c);
    assert caches.(views := caches.views + {c}).All() == caches.All() + {c};
  }

  lemma FragmentsAlone(cs: Classes, were: Caches, caches: Caches, pending: set<ClassId>)
    requires Fits(cs, were, {}) && Fits(cs, caches, pending) && were.fragments <= caches.fragments
    ensures Fits(cs, were.(fragments := caches.fragments), {})
  {
    var to := were.(fragments := caches.fragments);
    forall c <- to.All() ensures IsIn(cs, c, to.All()) {
      if c in caches.fragments {
        assert c in caches.All() && IsIn(cs, c, caches.All());
      } else {
        assert c in were.All() && IsIn(cs, c, were.All());
      }
    }
  }

  // ---- The registry

  class ModelRegistry {
    const cs: Classes
    ghost const rank: ClassId -> nat
    /** Every class that can be built: see Buildable. */
    ghost const buildable: set<ClassId>
    var fragments: set<ClassId>
    var relationshipFragments: set<ClassId>
    var views: set<ClassId>
    var building: Option<seq<Built>>
    /** The views whose relationships are still being checked, or are not in order. */
    ghost var pending: set<ClassId>
    /** The caches when the outermost call began. */
    ghost var were: Caches

    constructor (cs: Classes, ghost rank: ClassId -> nat)
      requires Whole(cs) && Ranked(cs, rank)
      ensures this.cs == cs && this.rank == rank && buildable == Buildable(cs) && Settled()
      ensures fragments == {} && relationshipFragments == {} && views == {}
    {
      this.cs, this.rank, buildable := cs, rank, Buildable(cs);
      fragments, relationshipFragments, views, building := {}, {}, {}, None;
      pending, were := {}, Caches({}, {}, {});
      BuildableIsLargest(cs);
    }

    ghost function Now(): Caches
      reads this
    {
      Caches(fragments, relationshipFragments, views)
    }

    ghost function Cached(): set<ClassId>
      reads this
    {
      Now().All()
    }

    ghost predicate Valid()
      reads this
    {
      && Whole(cs) && Ranked(cs, rank) && IsLargest(cs, buildable)
      && Fits(cs, Now(), pending)
      && if building.Some? then LogFits(cs, were, Now(), building.value) else pending == {}
    }

    /** Between calls: nothing is being built, and all that is cached is valid. */
    ghost predicate Settled()
      reads this
    {
      Valid() && building.None?
    }

    /** What may still be cached as a view. */
    ghost function Uncached(): set<ClassId>
      reads this
    {
      cs.all - views
    }

    method Fragment(c: ClassId) returns (ok: bool)
      requires c in cs.all && Valid()
      modifies this`fragments
      ensures Valid() && old(fragments) <= fragments
      ensures ok <==> cs.decl(c).FragmentDecl? && cs.decl(c).ok
      ensures ok ==> c in fragments
    {
      if c in fragments {
        assert IsIn(cs, c, Cached());
        return true;
      }
      if !cs.decl(c).FragmentDecl? || !cs.decl(c).ok {
        return false;
      }
      FragmentAdded(cs, Now(), pending, c);
      fragments := fragments + {c};
      return true;
    }

    /** What the log's base was, and that the caches have only grown since. */
    twostate predicate Grown()
      reads this
    {
      && building.Some? == old(building.Some?)
      && old(fragments) <= fragments
      && (old(building.Some?) ==>
            && were == old(were)
            && old(views) <= views && old(relationshipFragments) <= relationshipFragments && old(pending) <= pending)
    }

    /** A class that can be built is in order, and so are those it refers to. */
    lemma IsInOrder(c: ClassId)
      requires Valid() && c in cs.all
      ensures Refs(cs.decl(c)) <= cs.all
      ensures c in buildable ==> IsOk(cs, cs.decl(c)) && Refs(cs.decl(c)) <= buildable
    {
      assert c in buildable ==> IsIn(cs, c, buildable);
    }

    ghost function Rank(c: ClassId): nat {
      if cs.decl(c).RelationshipFragmentDecl? then rank(c) + 1 else 0
    }

    method Related(c: ClassId) returns (ok: bool)
      requires c in cs.all && Valid()
      modifies this
      ensures Valid() && Grown() && (ok || building.None? ==> pending == old(pending))
      ensures ok ==> old(Cached()) <= Cached()
      ensures ok ==> c in Cached() && !cs.decl(c).NoDecl?
      ensures c in buildable ==> ok
      decreases Uncached(), 0, Rank(c), 2
    {
      IsInOrder(c);
      match cs.decl(c)
      case FragmentDecl(_) => ok := Fragment(c);
      case ViewDecl(_, _, _, _) => ok := View(c);
      case RelationshipFragmentDecl(_, _) => ok := RelationshipFragment(c);
      case NoDecl => ok := false;
    }

    method RelationshipFragment(c: ClassId) returns (ok: bool)
      requires c in cs.all && cs.decl(c).RelationshipFragmentDecl?
      requires Valid()
      modifies this
      ensures Valid() && Grown() && (ok || building.None? ==> pending == old(pending))
      ensures ok ==> old(Cached()) <= Cached()
      ensures ok ==> c in relationshipFragments
      ensures c in buildable ==> ok
      decreases Uncached(), 0, Rank(c), 1
    {
      if c in relationshipFragments {
        return true;
      }
      var decl := cs.decl(c);
      IsInOrder(c);
      if !decl.ok || decl.target.None? {
        return false;
      }
      ok := Related(decl.target.value);
      if !ok || cs.decl(decl.target.value).RelationshipFragmentDecl? {
        return false;
      }
      RelationshipFragmentAdded(cs, Now(), pending, c);
      if building.Some? {
        RelationshipFragmentLogged(cs, were, Now(), building.value, c);
      }
      relationshipFragments := relationshipFragments + {c};
      if building.Some? {
        building := Some(building.value + [BuiltRelationshipFragment(c)]);
      }
    }

    /** The view's own declaration, and its root: its relationships are not resolved yet. */
    method BuildView(c: ClassId) returns (ok: bool)
      requires c in cs.all && cs.decl(c).ViewDecl? && Valid()
      modifies this`fragments
      ensures Valid() && old(fragments) <= fragments
      ensures ok ==> cs.decl(c).ok && IsFragment(cs, cs.decl(c).root) && Target(cs.decl(c).root) <= Cached()
      ensures c in buildable ==> ok
    {
      var decl := cs.decl(c);
      IsInOrder(c);
      if !decl.ok || decl.root.None? || !cs.decl(decl.root.value).FragmentDecl? {
        return false;
      }
      IsInOrder(decl.root.value);
      ok := Fragment(decl.root.value);
    }

    /** Resolves each relationship, and then each path. */
    method CheckRelationships(c: ClassId) returns (ok: bool)
      requires c in cs.all && cs.decl(c).ViewDecl? && building.Some? && Valid()
      modifies this
      ensures Valid() && Grown() && (ok ==> pending == old(pending))
      ensures ok ==> FieldsAreOk(cs, cs.decl(c).relationships) && PathsAreOk(cs, cs.decl(c).paths)
      ensures ok ==> FieldRefs(cs.decl(c).relationships) + PathRefs(cs.decl(c).paths) <= Cached()
      ensures c in buildable ==> ok
      decreases Uncached(), 1, 2
    {
      ok := CheckFields(c);
      if ok {
        ok := CheckPaths(c);
      }
    }

    method CheckFields(c: ClassId) returns (ok: bool)
      requires c in cs.all && cs.decl(c).ViewDecl? && building.Some? && Valid()
      modifies this
      ensures Valid() && Grown() && (ok ==> pending == old(pending))
      ensures ok ==> FieldsAreOk(cs, cs.decl(c).relationships) && FieldRefs(cs.decl(c).relationships) <= Cached()
      ensures c in buildable ==> ok
      decreases Uncached(), 1, 1
    {
      var fields := cs.decl(c).relationships;
      for i := 0 to |fields|
        invariant Valid() && Grown() && pending == old(pending)
        invariant FieldsAreOk(cs, fields[..i]) && FieldRefs(fields[..i]) <= Cached()
      {
        ok := CheckField(c, i);
        if !ok {
          return;
        }
        OneMoreField(cs, fields, i);
      }
      assert fields[..|fields|] == fields;
      return true;
    }

    method CheckField(c: ClassId, i: nat) returns (ok: bool)
      requires c in cs.all && cs.decl(c).ViewDecl? && building.Some? && Valid()
      requires i < |cs.decl(c).relationships|
      modifies this
      ensures Valid() && Grown() && (ok ==> pending == old(pending))
      ensures ok ==>
        FieldIsOk(cs, cs.decl(c).relationships[i]) && Target(cs.decl(c).relationships[i].target) <= Cached()
      ensures c in buildable ==> ok
      decreases Uncached(), 1, 0
    {
      var field := cs.decl(c).relationships[i];
      IsInOrder(c);
      FieldRefIs(cs.decl(c).relationships, i);
      if field.target.None? {
        return false;
      }
      assert field.target.value in Refs(cs.decl(c));
      ok := Related(field.target.value);
      if cs.decl(field.target.value).RelationshipFragmentDecl? && field.maxDepth > 1 {
        return false;
      }
    }

    method CheckPaths(c: ClassId) returns (ok: bool)
      requires c in cs.all && cs.decl(c).ViewDecl? && building.Some? && Valid()
      modifies this`fragments
      ensures Valid() && old(fragments) <= fragments
      ensures ok ==> PathsAreOk(cs, cs.decl(c).paths) && PathRefs(cs.decl(c).paths) <= Cached()
      ensures c in buildable ==> ok
    {
      var paths := cs.decl(c).paths;
      for i := 0 to |paths|
        invariant Valid() && old(fragments) <= fragments
        invariant PathsAreOk(cs, paths[..i]) && PathRefs(paths[..i]) <= Cached()
      {
        ok := CheckPath(c, i);
        if !ok {
          return;
        }
        OneMorePath(cs, paths, i);
      }
      assert paths[..|paths|] == paths;
      return true;
    }

    method CheckPath(c: ClassId, i: nat) returns (ok: bool)
      requires c in cs.all && cs.decl(c).ViewDecl? && building.Some? && Valid() && i < |cs.decl(c).paths|
      modifies this`fragments
      ensures Valid() && old(fragments) <= fragments
      ensures ok ==> IsFragment(cs, cs.decl(c).paths[i]) && Target(cs.decl(c).paths[i]) <= Cached()
      ensures c in buildable ==> ok
    {
      var path := cs.decl(c).paths[i];
      IsInOrder(c);
      PathRefIs(cs.decl(c).paths, i);
      if path.None? || !cs.decl(path.value).FragmentDecl? {
        return false;
      }
      assert path.value in Refs(cs.decl(c));
      IsInOrder(path.value);
      ok := Fragment(path.value);
    }

    /**
     * The view, built with all it leads to. Called outermost, it is refused exactly when the class is in no set of
     * classes that are in order and refer to one another alone; a refused call leaves the two caches as they were.
     */
    method View(c: ClassId) returns (ok: bool)
      requires c in cs.all && Valid()
      modifies this
      ensures Valid() && Grown() && (ok || building.None? ==> pending == old(pending))
      ensures ok ==> old(Cached()) <= Cached() && c in views
      ensures old(building).None? ==> (ok <==> c in buildable && cs.decl(c).ViewDecl?)
      ensures old(building).None? && !ok ==>
        views == old(views) && relationshipFragments == old(relationshipFragments)
      ensures c in buildable && cs.decl(c).ViewDecl? ==> ok
      decreases Uncached(), 0, 0, 1
    {
      if c in views {
        if pending == {} {
          CachedAreBuildable();
        }
        return true;
      }
      if building.Some? {
        ok := Build(c);
        return;
      }
      building := Some([]);
      were := Now();
      ok := Build(c);
      if !ok {
        RollBack();
      }
      building := None;
      CachedAreBuildable();
    }

    /** What is cached between calls is a set of classes that are in order and refer to one another alone. */
    lemma CachedAreBuildable()
      requires Valid() && pending == {}
      ensures IsClosed(cs, Cached()) && Cached() <= buildable
    {
      assert Cached() <= cs.all && IsClosed(cs, Cached());
    }

    /** Caches the view before it resolves its relationships. */
    method Build(c: ClassId) returns (ok: bool)
      requires c in cs.all && c !in views && building.Some? && Valid()
      modifies this
      ensures Valid() && Grown() && (ok ==> pending == old(pending))
      ensures ok ==> c in views
      ensures c in buildable && cs.decl(c).ViewDecl? ==> ok
      decreases Uncached(), 0, 0, 0
    {
      if !cs.decl(c).ViewDecl? {
        return false;
      }
      ok := BuildView(c);
      if !ok {
        return;
      }
      Cache(c);
      ok := CheckRelationships(c);
      if ok {
        ViewIsIn(cs, Now(), pending, c);
        pending := pending - {c};
      }
    }

    method Cache(c: ClassId)
      requires c in cs.all && cs.decl(c).ViewDecl? && c !in views && building.Some? && Valid()
      modifies this`views, this`pending, this`building
      ensures Valid() && building.Some?
      ensures views == old(views) + {c} && pending == old(pending) + {c} && Uncached() < old(Uncached())
    {
      ViewAdded(cs, Now(), pending, c);
      ViewLogged(cs, were, Now(), building.value, c);
      OneFewer(cs.all, views, c);
      views := views + {c};
      pending := pending + {c};
      building := Some(building.value + [BuiltView(c)]);
    }

    /** Takes out what was cached since the outermost call began. */
    method RollBack()
      requires Valid() && building.Some?
      modifies this`views, this`relationshipFragments, this`pending
      ensures Fits(cs, Now(), {}) && pending == {}
      ensures views == were.views && relationshipFragments == were.relationshipFragments
    {
      FragmentsAlone(cs, were, Now(), pending);
      TakeOut(building.value);
      pending := {};
    }

    method TakeOut(log: seq<Built>)
      modifies this`views, this`relationshipFragments
      ensures views == old(views) - LoggedViews(log)
      ensures relationshipFragments == old(relationshipFragments) - LoggedFragments(log)
    {
      var i := 0;
      while i < |log|
        invariant 0 <= i <= |log|
        invariant views == old(views) - LoggedViews(log[..i])
        invariant relationshipFragments == old(relationshipFragments) - LoggedFragments(log[..i])
      {
        assert log[..i + 1] == log[..i] + [log[i]];
        LogMore(log[..i], log[i]);
        if log[i].BuiltView? {
          views := views - {log[i].view};
        } else {
          relationshipFragments := relationshipFragments - {log[i].fragment};
        }
        i := i + 1;
      }
      assert log[..i] == log;
    }
  }
}
