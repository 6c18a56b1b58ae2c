/**
 * Why the registry refuses a class: a fault of its own, or of one it leads to (src/model/ModelRegistry.ts:226-251,
 * 282-414).
 */
module RegistryFaults {
  import opened Wrappers
  import opened Registry

  /** What the source throws for, each on its own. */
  datatype Fault =
    | NotDeclared
    /** What the class says of itself alone. */
    | NotInOrder
    | NoTargetNode
    | TargetOfNoKind
    | TargetIsRelationship
    | NoRoot
    | RootIsNoFragment
    | FieldOfNothing(i: nat)
    | FieldOfNoKind(i: nat)
    | FieldTooDeep(i: nat)
    | PathToNothing(i: nat)
    | PathToNoFragment(i: nat)

  predicate IsFault(cs: Classes, d: Decl, f: Fault) {
    match f
    case NotDeclared => d.NoDecl?
    case NotInOrder => !d.NoDecl? && !d.ok
    case NoTargetNode => d.RelationshipFragmentDecl? && d.target.None?
    case TargetOfNoKind => d.RelationshipFragmentDecl? && d.target.Some? && cs.decl(d.target.value).NoDecl?
    case TargetIsRelationship =>
      d.RelationshipFragmentDecl? && d.target.Some? && cs.decl(d.target.value).RelationshipFragmentDecl?
    case NoRoot => d.ViewDecl? && d.root.None?
    case RootIsNoFragment => d.ViewDecl? && d.root.Some? && !cs.decl(d.root.value).FragmentDecl?
    case FieldOfNothing(i) => d.ViewDecl? && i < |d.relationships| && d.relationships[i].target.None?
    case FieldOfNoKind(i) =>
      && d.ViewDecl? && i < |d.relationships| && d.relationships[i].target.Some?
      && cs.decl(d.relationships[i].target.value).NoDecl?
    case FieldTooDeep(i) =>
      && d.ViewDecl? && i < |d.relationships| && d.relationships[i].target.Some?
      && cs.decl(d.relationships[i].target.value).RelationshipFragmentDecl? && d.relationships[i].maxDepth >= 2
    case PathToNothing(i) => d.ViewDecl? && i < |d.paths| && d.paths[i].None?
    case PathToNoFragment(i) =>
      d.ViewDecl? && i < |d.paths| && d.paths[i].Some? && !cs.decl(d.paths[i].value).FragmentDecl?
  }

  ghost predicate IsFaultless(cs: Classes, d: Decl) {
    forall f :: !IsFault(cs, d, f)
  }

  lemma FieldIsFaultless(cs: Classes, d: Decl, i: nat)
    requires d.ViewDecl? && i < |d.relationships|
    ensures FieldIsOk(cs, d.relationships[i]) <==>
      !IsFault(cs, d, FieldOfNothing(i)) && !IsFault(cs, d, FieldOfNoKind(i)) && !IsFault(cs, d, FieldTooDeep(i))
  {
  }

  lemma PathIsFaultless(cs: Classes, d: Decl, i: nat)
    requires d.ViewDecl? && i < |d.paths|
    ensures IsFragment(cs, d.paths[i]) <==> !IsFault(cs, d, PathToNothing(i)) && !IsFault(cs, d, PathToNoFragment(i))
  {
  }

  /** A class is in order if and only if it has none of the faults. */
  lemma OkIsFaultless(cs: Classes, d: Decl)
    ensures IsOk(cs, d) <==> IsFaultless(cs, d)
  {
    if d.ViewDecl? {
      forall i: nat | i < |d.relationships|
        ensures FieldIsOk(cs, d.relationships[i]) <==>
          !IsFault(cs, d, FieldOfNothing(i)) && !IsFault(cs, d, FieldOfNoKind(i)) && !IsFault(cs, d, FieldTooDeep(i))
      {
        FieldIsFaultless(cs, d, i);
      }
      forall i: nat | i < |d.paths|
        ensures IsFragment(cs, d.paths[i]) <==>
          !IsFault(cs, d, PathToNothing(i)) && !IsFault(cs, d, PathToNoFragment(i))
      {
        PathIsFaultless(cs, d, i);
      }
    }
    if IsFaultless(cs, d) {
      assert !IsFault(cs, d, NotDeclared) && !IsFault(cs, d, NotInOrder);
      assert !IsFault(cs, d, NoTargetNode) && !IsFault(cs, d, TargetOfNoKind) && !IsFault(cs, d, TargetIsRelationship);
      assert !IsFault(cs, d, NoRoot) && !IsFault(cs, d, RootIsNoFragment);
    }
  }

  // ---- What a class leads to

  predicate Refers(d: Decl, r: ClassId) {
    || (d.RelationshipFragmentDecl? && d.target == Some(r))
    || (d.ViewDecl?
        && (|| d.root == Some(r) || (exists i | 0 <= i < |d.relationships| :: d.relationships[i].target == Some(r))
            || exists i | 0 <= i < |d.paths| :: d.paths[i] == Some(r)))
  }

  lemma {:induction false} FieldRefsAre(fields: seq<Field>, r: ClassId)
    ensures r in FieldRefs(fields) <==> exists i | 0 <= i < |fields| :: fields[i].target == Some(r)
  {
    if fields != [] {
      FieldRefsAre(fields[..|fields| - 1], r);
      assert forall i | 0 <= i < |fields| - 1 :: fields[..|fields| - 1][i] == fields[i];
    }
  }

  lemma {:induction false} PathRefsAre(paths: seq<Option<ClassId>>, r: ClassId)
    ensures r in PathRefs(paths) <==> exists i | 0 <= i < |paths| :: paths[i] == Some(r)
  {
    if paths != [] {
      PathRefsAre(paths[..|paths| - 1], r);
      assert forall i | 0 <= i < |paths| - 1 :: paths[..|paths| - 1][i] == paths[i];
    }
  }

  lemma RefsAre(d: Decl, r: ClassId)
    ensures r in Refs(d) <==> Refers(d, r)
  {
    if d.ViewDecl? {
      FieldRefsAre(d.relationships, r);
      PathRefsAre(d.paths, r);
    }
  }

  /** A chain of classes, each of which refers to the next. */
  ghost predicate IsChain(cs: Classes, chain: seq<ClassId>, from: ClassId, to: ClassId) {
    && chain != [] && chain[0] == from && chain[|chain| - 1] == to
    && forall i: nat {:trigger chain[i]} | i < |chain| - 1 :: Refers(cs.decl(chain[i]), chain[i + 1])
  }

  ghost predicate LeadsTo(cs: Classes, from: ClassId, to: ClassId) {
    exists chain :: IsChain(cs, chain, from, to)
  }

  lemma LeadsFurther(cs: Classes, from: ClassId, to: ClassId, next: ClassId)
    requires LeadsTo(cs, from, to) && Refers(cs.decl(to), next)
    ensures LeadsTo(cs, from, next)
  {
    var chain :| IsChain(cs, chain, from, to);
    assert IsChain(cs, chain + [next], from, next);
  }

  lemma {:induction false} ChainStaysIn(cs: Classes, s: set<ClassId>, chain: seq<ClassId>, from: ClassId, to: ClassId)
    requires IsClosed(cs, s) && from in s && IsChain(cs, chain, from, to)
    ensures to in s
    decreases |chain|
  {
    if |chain| > 1 {
      assert Refers(cs.decl(chain[0]), chain[0 + 1]) && IsIn(cs, from, s);
      RefsAre(cs.decl(from), chain[1]);
      assert forall i: nat | i < |chain| - 1 :: chain[1..][i] == chain[i + 1];
      ChainStaysIn(cs, s, chain[1..], chain[1], to);
    }
  }

  lemma {:induction false} ChainIsKnown(cs: Classes, chain: seq<ClassId>, from: ClassId, to: ClassId)
    requires Whole(cs) && from in cs.all && IsChain(cs, chain, from, to)
    ensures to in cs.all
    decreases |chain|
  {
    if |chain| > 1 {
      assert Refers(cs.decl(chain[0]), chain[0 + 1]) && Refs(cs.decl(from)) <= cs.all;
      RefsAre(cs.decl(from), chain[1]);
      assert forall i: nat | i < |chain| - 1 :: chain[1..][i] == chain[i + 1];
      ChainIsKnown(cs, chain[1..], chain[1], to);
    }
  }

  /** A class can be built if and only if no chain of references leads from it to one with a fault. */
  lemma BuildableUnlessItLeadsToAFault(cs: Classes, c: ClassId)
    requires Whole(cs) && c in cs.all
    ensures c in Buildable(cs) <==> forall d | LeadsTo(cs, c, d) :: IsFaultless(cs, cs.decl(d))
  {
    if c in Buildable(cs) {
      var s :| s <= cs.all && IsClosed(cs, s) && c in s;
      forall d | LeadsTo(cs, c, d) ensures IsFaultless(cs, cs.decl(d)) {
        var chain :| IsChain(cs, chain, c, d);
        ChainStaysIn(cs, s, chain, c, d);
        assert IsIn(cs, d, s);
        OkIsFaultless(cs, cs.decl(d));
      }
    }
    if forall d | LeadsTo(cs, c, d) :: IsFaultless(cs, cs.decl(d)) {
      ReachedAreClosed(cs, c);
    }
  }

  lemma ReachedAreClosed(cs: Classes, c: ClassId)
    requires Whole(cs) && c in cs.all && forall d | LeadsTo(cs, c, d) :: IsFaultless(cs, cs.decl(d))
    ensures c in Buildable(cs)
  {
    var s := set d | d in cs.all && LeadsTo(cs, c, d);
    assert IsChain(cs, [c], c, c);
    forall d <- s ensures IsIn(cs, d, s) {
      OkIsFaultless(cs, cs.decl(d));
      forall r <- Refs(cs.decl(d)) ensures r in s {
        RefsAre(cs.decl(d), r);
        LeadsFurther(cs, c, d, r);
        var chain :| IsChain(cs, chain, c, r);
        ChainIsKnown(cs, chain, c, r);
      }
    }
    assert IsClosed(cs, s) && c in s;
  }
}
