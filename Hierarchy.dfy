/** The supertype-hierarchy flattener: all superclasses and superinterfaces of
    a type, the type included, found by a depth-first walk that a visited set
    both accumulates and guards. */
module Hierarchy {
  import opened TypeGraph

  /** A set of nodes of `g` that holds the direct supertypes of each of its members. */
  ghost predicate Closed(g: Graph, s: set<nat>) {
    forall x :: x in s ==> x < |g.nodes| && g.Succs(x) <= s
  }

  /** The flattened supertype hierarchy of `t`: the least closed set containing `t`,
      that is, `t` and everything reachable from it over superclass and interface edges. */
  ghost function Ancestors(g: Graph, t: nat): set<nat> {
    set x: nat | x < |g.nodes| && InEveryClosedSet(g, t, x)
  }

  /** `x` belongs to every closed set that holds `t`. */
  ghost predicate InEveryClosedSet(g: Graph, t: nat, x: nat) {
    forall s :: Closed(g, s) && t in s ==> x in s
  }

  lemma AncestorsMinimal(g: Graph, t: nat, s: set<nat>)
    requires Closed(g, s) && t in s
    ensures Ancestors(g, t) <= s
  {
  }

  lemma AncestorsContainStart(g: Graph, t: nat)
    requires t < |g.nodes|
    ensures t in Ancestors(g, t)
  {
  }

  /** The flattened hierarchy is itself closed under supertype edges. */
  lemma AncestorsClosed(g: Graph, t: nat)
    requires g.WellFormed()
    ensures Closed(g, Ancestors(g, t))
  {
    var a := Ancestors(g, t);
    forall x | x in a ensures x < |g.nodes| && g.Succs(x) <= a {
      assert g.NodeWellFormed(x);
      forall y | y in g.Succs(x) ensures y in a {
        assert y < |g.nodes|;
        forall s | Closed(g, s) && t in s ensures y in s {
          assert x in s;
        }
      }
    }
  }

  /** A supertype of `t` has no ancestors that `t` lacks. */
  lemma AncestorsTransitive(g: Graph, t: nat, x: nat)
    requires g.WellFormed()
    requires x in Ancestors(g, t)
    ensures Ancestors(g, x) <= Ancestors(g, t)
  {
    AncestorsClosed(g, t);
    AncestorsMinimal(g, x, Ancestors(g, t));
  }

  /** A direct supertype of `t` is one of its ancestors, with all of its own. */
  lemma SuccessorAncestors(g: Graph, t: nat, x: nat)
    requires g.WellFormed() && t < |g.nodes| && x in g.Succs(t)
    ensures x in Ancestors(g, t)
    ensures Ancestors(g, x) <= Ancestors(g, t)
  {
    AncestorsContainStart(g, t);
    AncestorsClosed(g, t);
    AncestorsTransitive(g, t, x);
  }

  /** The recursion the Java walk follows: the hierarchy of `t` is `t` itself
      together with the hierarchies of its superclass and of each of its interfaces. */
  lemma AncestorsUnfold(g: Graph, t: nat)
    requires g.WellFormed() && t < |g.nodes|
    ensures Ancestors(g, t) == {t} + (set x, y | x in g.Succs(t) && y in Ancestors(g, x) :: y)
  {
    var rest := set x, y | x in g.Succs(t) && y in Ancestors(g, x) :: y;
    var a := Ancestors(g, t);
    forall y | y in rest ensures y in a {
      var x :| x in g.Succs(t) && y in Ancestors(g, x);
      SuccessorAncestors(g, t, x);
    }
    AncestorsContainStart(g, t);
    var u := {t} + rest;
    forall y | y in u ensures y < |g.nodes| && g.Succs(y) <= u {
      assert y in a;
      if y == t {
        forall z | z in g.Succs(t) ensures z in u {
          assert g.NodeWellFormed(t);
          AncestorsContainStart(g, z);
        }
      } else {
        var x :| x in g.Succs(t) && y in Ancestors(g, x);
        AncestorsClosed(g, x);
        forall z | z in g.Succs(y) ensures z in u {
          assert z in Ancestors(g, x);
        }
      }
    }
    AncestorsMinimal(g, t, u);
  }

  /** Every ancestor of a class type is a class type. */
  lemma AncestorsAreClassTypes(g: Graph, t: nat)
    requires g.WellFormed() && g.IsClassType(t)
    ensures forall x :: x in Ancestors(g, t) ==> g.IsClassType(x)
  {
    var classTypes := set x: nat | x < |g.nodes| && g.IsClassType(x);
    forall x | x in classTypes ensures g.Succs(x) <= classTypes {
      assert g.NodeWellFormed(x);
    }
    AncestorsMinimal(g, t, classTypes);
  }

  /** The nodes the walk added to `before` to reach `after` whose direct
      supertypes are not all in `after` yet. */
  ghost function Unfinished(g: Graph, before: set<nat>, after: set<nat>): set<nat>
    requires after <= g.Indices()
  {
    set x | x in after - before && !(g.Succs(x) <= after)
  }

  /** What a walk from `t` that started with the visited set `before` has done
      once it holds `after`: the set only grew, `t` is in it, everything it
      added is an ancestor of `t` whose own direct supertypes are in it, and
      each of its `inserted` insertions added a node not there before. */
  ghost predicate Walked(g: Graph, t: nat, before: set<nat>, after: set<nat>, inserted: nat) {
    before <= after <= g.Indices() &&
    t in after &&
    after - before <= Ancestors(g, t) &&
    Unfinished(g, before, after) == {} &&
    |after| == |before| + inserted
  }

  /** The state of the walk from `t` while it visits the direct supertypes of `t`:
      as `Walked`, except that the supertypes of `t` itself may still be missing. */
  ghost predicate Walking(g: Graph, t: nat, before: set<nat>, seen: set<nat>, inserted: nat) {
    t !in before &&
    before + {t} <= seen <= g.Indices() &&
    seen - before <= Ancestors(g, t) &&
    Unfinished(g, before, seen) <= {t} &&
    |seen| == |before| + inserted
  }

  /** One recursive call of the walk on a direct supertype `x` of `t` keeps `Walking`. */
  lemma WalkStep(g: Graph, t: nat, x: nat, before: set<nat>, seen: set<nat>, inserted: nat,
                 seen': set<nat>, more: nat)
    requires g.WellFormed() && t < |g.nodes| && x in g.Succs(t)
    requires Walking(g, t, before, seen, inserted)
    requires Walked(g, x, seen, seen', more)
    ensures Walking(g, t, before, seen', inserted + more)
    ensures seen <= seen' && x in seen'
  {
    SuccessorAncestors(g, t, x);
    forall y | y in Unfinished(g, before, seen') ensures y == t {
      assert y !in Unfinished(g, seen, seen');
      assert y in seen;
      assert y in Unfinished(g, before, seen);
    }
  }

  /** Marking `t` visited starts a walk from `t`. */
  lemma WalkStart(g: Graph, t: nat, before: set<nat>)
    requires g.WellFormed() && t < |g.nodes| && t !in before && before <= g.Indices()
    ensures Walking(g, t, before, before + {t}, 1)
  {
    AncestorsContainStart(g, t);
  }

  /** The direct supertypes of a node are nodes of the graph. */
  lemma SupertypesInRange(g: Graph, t: nat)
    requires g.WellFormed() && t < |g.nodes|
    ensures g.nodes[t].superclass.Some? ==> g.nodes[t].superclass.value < |g.nodes|
    ensures forall j :: j in g.nodes[t].intfs ==> j < |g.nodes|
  {
    assert g.NodeWellFormed(t);
  }

  /** Once every direct supertype of `t` is visited, the walk from `t` is complete. */
  lemma WalkDone(g: Graph, t: nat, before: set<nat>, seen: set<nat>, inserted: nat)
    requires g.WellFormed() && t < |g.nodes|
    requires Walking(g, t, before, seen, inserted) && g.Succs(t) <= seen
    ensures Walked(g, t, before, seen, inserted)
  {
    assert t !in Unfinished(g, before, seen);
  }

  /** The recursive walk (JClassType.getFlattenedSuperTypeHierarchyRecursive): it adds
      `t` and its supertypes to `typesSeen`, unless `t` was seen already. The ghost
      `inserted` counts the insertions it performs. */
  method GetFlattenedSuperTypeHierarchyRecursive(g: Graph, t: nat, typesSeen: set<nat>)
    returns (seen: set<nat>, ghost inserted: nat)
    requires g.WellFormed() && t < |g.nodes|
    requires typesSeen <= g.Indices()
    ensures Walked(g, t, typesSeen, seen, inserted)
    ensures t in typesSeen ==> seen == typesSeen
    decreases |g.Indices() - typesSeen|
  {
    if t in typesSeen {
      return typesSeen, 0;
    }
    seen := typesSeen + {t};
    inserted := 1;
    WalkStart(g, t, typesSeen);
    var n := g.nodes[t];
    SupertypesInRange(g, t);

    // Superclass
    if n.superclass.Some? {
      FewerUnseen(g.Indices(), typesSeen, seen, t);
      var s, more := GetFlattenedSuperTypeHierarchyRecursive(g, n.superclass.value, seen);
      WalkStep(g, t, n.superclass.value, typesSeen, seen, inserted, s, more);
      seen, inserted := s, inserted + more;
    }

    // The interfaces
    for k := 0 to |n.intfs|
      invariant Walking(g, t, typesSeen, seen, inserted)
      invariant n.superclass.Some? ==> n.superclass.value in seen
      invariant forall j :: 0 <= j < k ==> n.intfs[j] in seen
    {
      assert n.intfs[k] in n.intfs;
      FewerUnseen(g.Indices(), typesSeen, seen, t);
      var s, more := GetFlattenedSuperTypeHierarchyRecursive(g, n.intfs[k], seen);
      WalkStep(g, t, n.intfs[k], typesSeen, seen, inserted, s, more);
      PrefixStillSeen(n.intfs, k, seen, s);
      seen, inserted := s, inserted + more;
    }
    WalkDone(g, t, typesSeen, seen, inserted);
  }

  /** Growing the visited set keeps the interfaces visited so far, and the next one. */
  lemma PrefixStillSeen(intfs: seq<nat>, k: nat, seen: set<nat>, seen': set<nat>)
    requires k < |intfs| && seen <= seen' && intfs[k] in seen'
    requires forall j :: 0 <= j < k ==> intfs[j] in seen
    ensures forall j :: 0 <= j < k + 1 ==> intfs[j] in seen'
  {
  }

  /** Marking `t` visited shrinks the set of unvisited nodes: the walk terminates. */
  lemma FewerUnseen(all: set<nat>, before: set<nat>, seen: set<nat>, t: nat)
    requires t in all && t !in before && before + {t} <= seen
    ensures |all - seen| < |all - before|
  {
    var unseen, unseenBefore := all - seen, all - before;
    assert t in unseenBefore - unseen;
    assert unseenBefore == unseen + (unseenBefore - unseen);
    assert unseen * (unseenBefore - unseen) == {};
  }

  /** JClassType.getFlattenedSuperTypeHierarchy: the type and all its superclasses
      and superinterfaces. */
  method GetFlattenedSuperTypeHierarchy(g: Graph, t: nat) returns (typesSeen: set<nat>)
    requires g.WellFormed() && t < |g.nodes|
    ensures typesSeen == Ancestors(g, t)
  {
    ghost var inserted;
    typesSeen, inserted := GetFlattenedSuperTypeHierarchyRecursive(g, t, {});
    assert typesSeen - {} == typesSeen;
    AncestorsMinimal(g, t, typesSeen);
  }
}
