/** What the assignability rules of JClassType promise, proved of the model. */
module AssignabilityProperties {
  import opened TypeGraph
  import opened Hierarchy
  import opened Assignability

  // ---------------------------------------------------------------------------
  // Fuel: more nested calls never retract an answer `true`.
  // ---------------------------------------------------------------------------

  lemma {:induction false} ClassTypesMonotone(g: Graph, fuel: nat, more: nat, lhs: nat, rhs: nat)
    requires g.WellFormed() && g.IsClassType(lhs) && g.IsClassType(rhs) && fuel <= more
    requires AreClassTypesAssignable(g, fuel, lhs, rhs)
    ensures AreClassTypesAssignable(g, more, lhs, rhs)
    decreases fuel, 0
  {
    AncestorsAreClassTypes(g, rhs);
    var s :| s in Ancestors(g, rhs) && AreClassTypesAssignableNoSupers(g, fuel - 1, lhs, s);
    NoSupersMonotone(g, fuel - 1, more - 1, lhs, s);
  }

  lemma {:induction false} NoSupersMonotone(g: Graph, fuel: nat, more: nat, lhs: nat, rhs: nat)
    requires g.WellFormed() && g.IsClassType(lhs) && g.IsClassType(rhs) && fuel <= more
    requires AreClassTypesAssignableNoSupers(g, fuel, lhs, rhs)
    ensures AreClassTypesAssignableNoSupers(g, more, lhs, rhs)
    decreases fuel, 4
  {
    if lhs != rhs && lhs != g.objectIdx {
      var l := RawIfGeneric(g, lhs);
      var r := RawIfGeneric(g, rhs);
      var lk := g.nodes[l].kind;
      var rk := g.nodes[r].kind;
      if lk.TypeParam? {
        forall b | b in g.Bounds(l) ensures AreClassTypesAssignable(g, more, b, r) {
          ClassTypesMonotone(g, fuel, more, b, r);
        }
      } else if rk.TypeParam? {
        var b :| b in g.Bounds(r) && AreClassTypesAssignable(g, fuel, l, b);
        ClassTypesMonotone(g, fuel, more, l, b);
      } else if lk.Wildcard? && rk.Wildcard? {
        WildcardsMonotone(g, fuel, more, l, r);
      } else if lk.Wildcard? {
        if lk.upper {
          ClassTypesMonotone(g, fuel, more, g.FirstBound(l), r);
        }
      } else if lk.Array? {
        ArraysMonotone(g, fuel, more, l, r);
      } else if lk.IsMaybeParameterized() && rk.IsMaybeParameterized() && lk.base == rk.base {
        if !lk.Raw? && !rk.Raw? {
          TypeArgumentsMonotone(g, fuel, more, l, r);
        }
      }
    }
  }

  lemma {:induction false} ArraysMonotone(g: Graph, fuel: nat, more: nat, lhs: nat, rhs: nat)
    requires g.WellFormed() && lhs < |g.nodes| && rhs < |g.nodes| && lhs != rhs && fuel <= more
    requires g.nodes[lhs].kind.Array? && g.nodes[rhs].kind.Array?
    requires AreArraysAssignable(g, fuel, lhs, rhs)
    ensures AreArraysAssignable(g, more, lhs, rhs)
    decreases fuel, 3
  {
    ClassTypesMonotone(g, fuel, more, g.Component(lhs), g.Component(rhs));
  }

  lemma {:induction false} TypeArgumentsMonotone(g: Graph, fuel: nat, more: nat, lhs: nat, rhs: nat)
    requires g.WellFormed() && lhs < |g.nodes| && rhs < |g.nodes| && lhs != rhs && fuel <= more
    requires g.nodes[lhs].kind.Parameterized? && g.nodes[rhs].kind.Parameterized?
    requires g.nodes[lhs].kind.base == g.nodes[rhs].kind.base
    requires AreTypeArgumentsAssignable(g, fuel, lhs, rhs)
    ensures AreTypeArgumentsAssignable(g, more, lhs, rhs)
    decreases fuel, 3
  {
    var la := g.TypeArgs(lhs);
    var ra := g.TypeArgs(rhs);
    forall i | 0 <= i < g.TypeParamCount(lhs) ensures DoesTypeArgumentContain(g, more, la[i], ra[i]) {
      ContainMonotone(g, fuel, more, la[i], ra[i]);
    }
  }

  lemma {:induction false} WildcardsMonotone(g: Graph, fuel: nat, more: nat, lhs: nat, rhs: nat)
    requires g.WellFormed() && lhs < |g.nodes| && rhs < |g.nodes| && lhs != rhs && fuel <= more
    requires g.nodes[lhs].kind.Wildcard? && g.nodes[rhs].kind.Wildcard?
    requires AreWildcardsAssignable(g, fuel, lhs, rhs)
    ensures AreWildcardsAssignable(g, more, lhs, rhs)
    decreases fuel, 1
  {
    var lk := g.nodes[lhs].kind;
    var rk := g.nodes[rhs].kind;
    if lk.upper && rk.upper {
      ClassTypesMonotone(g, fuel, more, g.FirstBound(lhs), g.FirstBound(rhs));
    } else if !lk.upper && !rk.upper {
      ClassTypesMonotone(g, fuel, more, g.FirstBound(rhs), g.FirstBound(lhs));
    }
  }

  lemma {:induction false} ContainMonotone(g: Graph, fuel: nat, more: nat, lhs: nat, rhs: nat)
    requires g.WellFormed() && g.IsClassType(lhs) && g.IsClassType(rhs) && fuel <= more
    requires DoesTypeArgumentContain(g, fuel, lhs, rhs)
    ensures DoesTypeArgumentContain(g, more, lhs, rhs)
    decreases fuel, 2
  {
    if lhs != rhs {
      var lk := g.nodes[lhs].kind;
      var rk := g.nodes[rhs].kind;
      if rk.Wildcard? {
        WildcardsMonotone(g, fuel, more, lhs, rhs);
      } else if lk.upper {
        ClassTypesMonotone(g, fuel, more, g.FirstBound(lhs), rhs);
      } else {
        ClassTypesMonotone(g, fuel, more, rhs, g.FirstBound(lhs));
      }
    }
  }

  // ---------------------------------------------------------------------------
  // Identity, the Object sink and the supertype hierarchy.
  // ---------------------------------------------------------------------------

  /** A type is assignable from every type whose flattened hierarchy holds it. */
  lemma AssignableFromAncestor(g: Graph, fuel: nat, lhs: nat, rhs: nat)
    requires g.WellFormed() && g.IsClassType(lhs) && g.IsClassType(rhs) && fuel >= 1
    requires lhs in Ancestors(g, rhs)
    ensures AreClassTypesAssignable(g, fuel, lhs, rhs)
  {
    AncestorsAreClassTypes(g, rhs);
    assert AreClassTypesAssignableNoSupers(g, fuel - 1, lhs, lhs);
  }

  /** Every type is assignable from itself. */
  lemma AssignableReflexive(g: Graph, fuel: nat, t: nat)
    requires g.WellFormed() && g.IsClassType(t) && fuel >= 1
    ensures IsAssignableFrom(g, fuel, t, t)
  {
    AncestorsContainStart(g, t);
    AssignableFromAncestor(g, fuel, t, t);
  }

  /** Every class type is assignable to java.lang.Object. */
  lemma AssignableToObject(g: Graph, fuel: nat, t: nat)
    requires g.WellFormed() && g.IsClassType(t) && fuel >= 1
    ensures IsAssignableTo(g, fuel, t, g.objectIdx)
  {
    AncestorsContainStart(g, t);
    assert AreClassTypesAssignableNoSupers(g, fuel - 1, g.objectIdx, t);
  }

  /** What is assignable from a supertype of `rhs` is assignable from `rhs`:
      a type reached over two paths of a diamond counts once, through either. */
  lemma AssignableFromSubtype(g: Graph, fuel: nat, lhs: nat, mid: nat, rhs: nat)
    requires g.WellFormed() && g.IsClassType(lhs) && g.IsClassType(mid) && g.IsClassType(rhs)
    requires mid in Ancestors(g, rhs)
    requires AreClassTypesAssignable(g, fuel, lhs, mid)
    ensures AreClassTypesAssignable(g, fuel, lhs, rhs)
  {
    AncestorsAreClassTypes(g, mid);
    AncestorsAreClassTypes(g, rhs);
    var s :| s in Ancestors(g, mid) && AreClassTypesAssignableNoSupers(g, fuel - 1, lhs, s);
    AncestorsTransitive(g, rhs, mid);
    assert s in Ancestors(g, rhs);
  }

  // ---------------------------------------------------------------------------
  // Generic declarations, raw types and parameterizations.
  // ---------------------------------------------------------------------------

  /** A raw type (or the generic declaration itself) and any parameterization of
      the same generic declaration are assignable in both directions. */
  lemma RawAssignableBothWays(g: Graph, fuel: nat, a: nat, b: nat)
    requires g.WellFormed() && g.IsClassType(a) && g.IsClassType(b) && fuel >= 1
    requires g.GenericBase(a).Some? && g.GenericBase(a) == g.GenericBase(b)
    requires !g.nodes[a].kind.Parameterized? || !g.nodes[b].kind.Parameterized?
    ensures IsAssignableFrom(g, fuel, a, b) && IsAssignableFrom(g, fuel, b, a)
  {
    RawNoSupers(g, fuel - 1, a, b);
    RawNoSupers(g, fuel - 1, b, a);
    AncestorsContainStart(g, a);
    AncestorsContainStart(g, b);
    AncestorsAreClassTypes(g, a);
    AncestorsAreClassTypes(g, b);
  }

  lemma RawNoSupers(g: Graph, fuel: nat, a: nat, b: nat)
    requires g.WellFormed() && g.IsClassType(a) && g.IsClassType(b)
    requires g.GenericBase(a).Some? && g.GenericBase(a) == g.GenericBase(b)
    requires !g.nodes[a].kind.Parameterized? || !g.nodes[b].kind.Parameterized?
    ensures AreClassTypesAssignableNoSupers(g, fuel, a, b)
  {
    if a != b && a != g.objectIdx {
      var l := RawIfGeneric(g, a);
      var r := RawIfGeneric(g, b);
      assert g.nodes[l].kind.IsMaybeParameterized() && g.nodes[r].kind.IsMaybeParameterized();
      assert g.nodes[l].kind.base == g.nodes[r].kind.base;
    }
  }

  /** Two distinct parameterizations of one generic declaration, compared
      directly (without the supertypes of `rhs`): they match exactly when, at
      every type parameter the base declares, the lhs argument contains the rhs
      argument. */
  lemma SameBaseParameterized(g: Graph, fuel: nat, lhs: nat, rhs: nat)
    requires g.WellFormed() && lhs < |g.nodes| && rhs < |g.nodes| && lhs != rhs
    requires g.nodes[lhs].kind.Parameterized? && g.nodes[rhs].kind.Parameterized?
    requires g.nodes[lhs].kind.base == g.nodes[rhs].kind.base
    ensures AreClassTypesAssignableNoSupers(g, fuel, lhs, rhs) <==>
      forall i :: 0 <= i < g.TypeParamCount(lhs) ==>
        DoesTypeArgumentContain(g, fuel, g.TypeArgs(lhs)[i], g.TypeArgs(rhs)[i])
  {
    assert AreClassTypesAssignableNoSupers(g, fuel, lhs, rhs) ==
      AreTypeArgumentsAssignable(g, fuel, lhs, rhs);
  }

  /** Invariance, compared directly (without the supertypes of `rhs`): where an
      lhs argument is not a wildcard and differs from the rhs argument, the
      parameterizations do not match, whatever the two arguments' own relation.
      `ParameterizationsInvariant` lifts this to the whole procedure. */
  lemma DistinctArgumentsNotAssignable(g: Graph, fuel: nat, lhs: nat, rhs: nat, i: nat)
    requires g.WellFormed() && lhs < |g.nodes| && rhs < |g.nodes| && lhs != rhs
    requires g.nodes[lhs].kind.Parameterized? && g.nodes[rhs].kind.Parameterized?
    requires g.nodes[lhs].kind.base == g.nodes[rhs].kind.base
    requires i < g.TypeParamCount(lhs)
    requires g.TypeArgs(lhs)[i] != g.TypeArgs(rhs)[i]
    requires !g.nodes[g.TypeArgs(lhs)[i]].kind.Wildcard?
    ensures !AreClassTypesAssignableNoSupers(g, fuel, lhs, rhs)
  {
    SameBaseParameterized(g, fuel, lhs, rhs);
    ContainmentWithoutWildcard(g, fuel, g.TypeArgs(lhs)[i], g.TypeArgs(rhs)[i]);
  }

  /** A parameterization does not match, compared directly, a type that is not a
      type parameter and has another generic base (or none). */
  lemma ParameterizedNotFromOtherBase(g: Graph, fuel: nat, lhs: nat, s: nat)
    requires g.WellFormed() && lhs < |g.nodes| && g.IsClassType(s)
    requires g.nodes[lhs].kind.Parameterized?
    requires !g.nodes[s].kind.TypeParam? && g.GenericBase(s) != g.GenericBase(lhs)
    ensures !AreClassTypesAssignableNoSupers(g, fuel, lhs, s)
  {
    var r := RawIfGeneric(g, s);
    assert g.nodes[r].kind.IsMaybeParameterized() ==> g.nodes[r].kind.base != g.nodes[lhs].kind.base;
  }

  /** Invariance for the whole procedure: where an lhs argument is not a wildcard
      and differs from the rhs argument, `lhs` is not assignable from `rhs`,
      provided no proper supertype of `rhs` is a type parameter or shares its
      generic base (as in every hierarchy Java admits, where a class does not
      inherit from its own generic declaration). */
  lemma ParameterizationsInvariant(g: Graph, fuel: nat, lhs: nat, rhs: nat, i: nat)
    requires g.WellFormed() && lhs < |g.nodes| && rhs < |g.nodes| && lhs != rhs
    requires g.nodes[lhs].kind.Parameterized? && g.nodes[rhs].kind.Parameterized?
    requires g.nodes[lhs].kind.base == g.nodes[rhs].kind.base
    requires i < g.TypeParamCount(lhs)
    requires g.TypeArgs(lhs)[i] != g.TypeArgs(rhs)[i]
    requires !g.nodes[g.TypeArgs(lhs)[i]].kind.Wildcard?
    requires forall s :: s in Ancestors(g, rhs) && s != rhs ==>
      s < |g.nodes| && !g.nodes[s].kind.TypeParam? && g.GenericBase(s) != g.GenericBase(rhs)
    ensures !IsAssignableFrom(g, fuel, lhs, rhs)
  {
    if fuel > 0 {
      AncestorsAreClassTypes(g, rhs);
      forall s | s in Ancestors(g, rhs) ensures !AreClassTypesAssignableNoSupers(g, fuel - 1, lhs, s) {
        if s == rhs {
          DistinctArgumentsNotAssignable(g, fuel - 1, lhs, rhs, i);
        } else {
          ParameterizedNotFromOtherBase(g, fuel - 1, lhs, s);
        }
      }
    }
  }

  /** Wildcard variance: when every lhs argument is the rhs argument, or an
      `? extends B` with B assignable from it, or a `? super B` assignable to B,
      the rhs parameterization is assignable to the lhs one. */
  lemma ArgumentsWithinWildcards(g: Graph, fuel: nat, lhs: nat, rhs: nat)
    requires g.WellFormed() && lhs < |g.nodes| && rhs < |g.nodes| && lhs != rhs
    requires g.nodes[lhs].kind.Parameterized? && g.nodes[rhs].kind.Parameterized?
    requires g.nodes[lhs].kind.base == g.nodes[rhs].kind.base
    requires forall i :: 0 <= i < g.TypeParamCount(lhs) ==>
      var la, ra := g.TypeArgs(lhs)[i], g.TypeArgs(rhs)[i];
      la == ra ||
      (g.nodes[la].kind.Wildcard? && !g.nodes[ra].kind.Wildcard? &&
       if g.nodes[la].kind.upper then AreClassTypesAssignable(g, fuel, g.FirstBound(la), ra)
       else AreClassTypesAssignable(g, fuel, ra, g.FirstBound(la)))
    ensures IsAssignableFrom(g, fuel + 1, lhs, rhs)
  {
    SameBaseParameterized(g, fuel, lhs, rhs);
    AncestorsContainStart(g, rhs);
    AncestorsAreClassTypes(g, rhs);
    assert AreClassTypesAssignableNoSupers(g, fuel, lhs, rhs);
  }

  // ---------------------------------------------------------------------------
  // Type-argument containment.
  // ---------------------------------------------------------------------------

  /** An argument that is not a wildcard contains no argument but itself. */
  lemma ContainmentWithoutWildcard(g: Graph, fuel: nat, lhs: nat, rhs: nat)
    requires g.WellFormed() && g.IsClassType(lhs) && g.IsClassType(rhs)
    requires !g.nodes[lhs].kind.Wildcard?
    ensures DoesTypeArgumentContain(g, fuel, lhs, rhs) <==> lhs == rhs
  {
  }

  /** `? extends B` contains a non-wildcard argument exactly when B is assignable from it. */
  lemma ContainmentUpperWildcard(g: Graph, fuel: nat, lhs: nat, rhs: nat)
    requires g.WellFormed() && g.IsClassType(lhs) && g.IsClassType(rhs) && lhs != rhs
    requires g.nodes[lhs].kind.Wildcard? && g.nodes[lhs].kind.upper
    requires !g.nodes[rhs].kind.Wildcard?
    ensures DoesTypeArgumentContain(g, fuel, lhs, rhs) ==
      AreClassTypesAssignable(g, fuel, g.FirstBound(lhs), rhs)
  {
  }

  /** `? super B` contains a non-wildcard argument exactly when it is assignable from B. */
  lemma ContainmentLowerWildcard(g: Graph, fuel: nat, lhs: nat, rhs: nat)
    requires g.WellFormed() && g.IsClassType(lhs) && g.IsClassType(rhs) && lhs != rhs
    requires g.nodes[lhs].kind.Wildcard? && !g.nodes[lhs].kind.upper
    requires !g.nodes[rhs].kind.Wildcard?
    ensures DoesTypeArgumentContain(g, fuel, lhs, rhs) ==
      AreClassTypesAssignable(g, fuel, rhs, g.FirstBound(lhs))
  {
  }

  /** A pair of distinct wildcards with one upper and one lower bound is neither
      assignable by the wildcard rule nor contained as arguments, and does not
      match when compared directly (without the supertypes of `rhs`). */
  lemma MixedWildcardsNeverAssignable(g: Graph, fuel: nat, lhs: nat, rhs: nat)
    requires g.WellFormed() && lhs < |g.nodes| && rhs < |g.nodes| && lhs != rhs
    requires g.nodes[lhs].kind.Wildcard? && g.nodes[rhs].kind.Wildcard?
    requires g.nodes[lhs].kind.upper != g.nodes[rhs].kind.upper
    ensures !AreWildcardsAssignable(g, fuel, lhs, rhs)
    ensures !DoesTypeArgumentContain(g, fuel, lhs, rhs)
    ensures !AreClassTypesAssignableNoSupers(g, fuel, lhs, rhs)
  {
  }

  /** Two distinct wildcards with bounds of the same direction, as arguments or
      compared directly (without the supertypes of `rhs`): `? extends T` from
      `? extends U` when T is assignable from U, `? super T` from `? super U` when
      U is assignable from T. */
  lemma SameDirectionWildcards(g: Graph, fuel: nat, lhs: nat, rhs: nat)
    requires g.WellFormed() && lhs < |g.nodes| && rhs < |g.nodes| && lhs != rhs
    requires g.nodes[lhs].kind.Wildcard? && g.nodes[rhs].kind.Wildcard?
    requires g.nodes[lhs].kind.upper == g.nodes[rhs].kind.upper
    ensures DoesTypeArgumentContain(g, fuel, lhs, rhs) == AreClassTypesAssignableNoSupers(g, fuel, lhs, rhs)
    ensures DoesTypeArgumentContain(g, fuel, lhs, rhs) ==
      if g.nodes[lhs].kind.upper
      then AreClassTypesAssignable(g, fuel, g.FirstBound(lhs), g.FirstBound(rhs))
      else AreClassTypesAssignable(g, fuel, g.FirstBound(rhs), g.FirstBound(lhs))
  {
  }

  // ---------------------------------------------------------------------------
  // Arrays.
  // ---------------------------------------------------------------------------

  /** Two distinct array types either of whose components is primitive do not
      match when compared directly (without the supertypes of `rhs`). */
  lemma PrimitiveArraysNotAssignable(g: Graph, fuel: nat, lhs: nat, rhs: nat)
    requires g.WellFormed() && lhs < |g.nodes| && rhs < |g.nodes| && lhs != rhs
    requires g.nodes[lhs].kind.Array? && g.nodes[rhs].kind.Array?
    requires g.nodes[g.Component(lhs)].kind.Primitive? || g.nodes[g.Component(rhs)].kind.Primitive?
    ensures !AreClassTypesAssignableNoSupers(g, fuel, lhs, rhs)
  {
  }

  /** Compared directly (without the supertypes of `rhs`), arrays of reference
      types are covariant: the components decide. */
  lemma ArrayCovariance(g: Graph, fuel: nat, lhs: nat, rhs: nat)
    requires g.WellFormed() && lhs < |g.nodes| && rhs < |g.nodes| && lhs != rhs
    requires g.nodes[lhs].kind.Array? && g.nodes[rhs].kind.Array?
    requires !g.nodes[g.Component(lhs)].kind.Primitive? && !g.nodes[g.Component(rhs)].kind.Primitive?
    ensures AreClassTypesAssignableNoSupers(g, fuel, lhs, rhs) ==
      AreClassTypesAssignable(g, fuel, g.Component(lhs), g.Component(rhs))
  {
  }

  /** Compared directly (without the supertypes of `rhs`), an array type does not
      match a type that is neither an array nor a type parameter. */
  lemma ArrayNotFromNonArray(g: Graph, fuel: nat, lhs: nat, rhs: nat)
    requires g.WellFormed() && g.IsClassType(lhs) && g.IsClassType(rhs)
    requires g.nodes[lhs].kind.Array? && !g.nodes[rhs].kind.Array? && !g.nodes[rhs].kind.TypeParam?
    ensures !AreClassTypesAssignableNoSupers(g, fuel, lhs, rhs)
  {
  }

  /** Compared directly (without the supertypes of `rhs`), an array type matches no
      type but Object, an array, a type parameter or a wildcard. */
  lemma NonArrayNotFromArray(g: Graph, fuel: nat, lhs: nat, rhs: nat)
    requires g.WellFormed() && g.IsClassType(lhs) && g.IsClassType(rhs) && lhs != g.objectIdx
    requires g.nodes[rhs].kind.Array? && !g.nodes[lhs].kind.Array?
    requires !g.nodes[lhs].kind.TypeParam? && !g.nodes[lhs].kind.Wildcard?
    ensures !AreClassTypesAssignableNoSupers(g, fuel, lhs, rhs)
  {
  }

  // ---------------------------------------------------------------------------
  // Type parameters and wildcards at the top level.
  // ---------------------------------------------------------------------------

  /** Compared directly (without the supertypes of `rhs`), a type parameter on the
      left is the intersection of its bounds: it matches `rhs` exactly when every
      bound is assignable from it. */
  lemma TypeParamTarget(g: Graph, fuel: nat, lhs: nat, rhs: nat)
    requires g.WellFormed() && g.IsClassType(lhs) && g.IsClassType(rhs) && lhs != rhs
    requires g.nodes[lhs].kind.TypeParam?
    ensures AreClassTypesAssignableNoSupers(g, fuel, lhs, rhs) <==>
      forall b :: b in g.Bounds(lhs) ==> AreClassTypesAssignable(g, fuel, b, RawIfGeneric(g, rhs))
  {
  }

  /** Compared directly (without the supertypes of `rhs`), a type parameter on the
      right stands for some subtype of one of its bounds: it matches `lhs` exactly
      when `lhs` is assignable from some bound. */
  lemma TypeParamSource(g: Graph, fuel: nat, lhs: nat, rhs: nat)
    requires g.WellFormed() && g.IsClassType(lhs) && g.IsClassType(rhs)
    requires lhs != rhs && lhs != g.objectIdx
    requires g.nodes[rhs].kind.TypeParam? && !g.nodes[lhs].kind.TypeParam?
    ensures AreClassTypesAssignableNoSupers(g, fuel, lhs, rhs) <==>
      exists b :: b in g.Bounds(rhs) && AreClassTypesAssignable(g, fuel, RawIfGeneric(g, lhs), b)
  {
  }

  /** A type parameter declared without bounds, as a target, accepts every
      other class type: the loop over its bounds finds none to fail. */
  lemma UnboundedTypeParamTarget(g: Graph, fuel: nat, lhs: nat, rhs: nat)
    requires g.WellFormed() && g.IsClassType(lhs) && g.IsClassType(rhs) && lhs != rhs
    requires g.nodes[lhs].kind.TypeParam? && g.Bounds(lhs) == []
    ensures AreClassTypesAssignableNoSupers(g, fuel, lhs, rhs)
  {
    TypeParamTarget(g, fuel, lhs, rhs);
  }

  /** Compared directly (without its own supertypes), a type parameter declared
      without bounds, as a source, is rejected by every target that reaches the
      source-side bound rule: all but itself, Object and a type parameter. */
  lemma UnboundedTypeParamSource(g: Graph, fuel: nat, lhs: nat, rhs: nat)
    requires g.WellFormed() && g.IsClassType(lhs) && g.IsClassType(rhs)
    requires lhs != rhs && lhs != g.objectIdx && !g.nodes[lhs].kind.TypeParam?
    requires g.nodes[rhs].kind.TypeParam? && g.Bounds(rhs) == []
    ensures !AreClassTypesAssignableNoSupers(g, fuel, lhs, rhs)
  {
    TypeParamSource(g, fuel, lhs, rhs);
  }

  /** A type parameter is assignable to each of its bounds that is not itself a
      type parameter. */
  lemma TypeParamAssignableToBound(g: Graph, fuel: nat, p: nat, b: nat)
    requires g.WellFormed() && p < |g.nodes| && g.nodes[p].kind.TypeParam? && fuel >= 2
    requires b in g.Bounds(p) && !g.nodes[b].kind.TypeParam?
    ensures IsAssignableFrom(g, fuel, b, p)
  {
    AncestorsContainStart(g, p);
    AncestorsAreClassTypes(g, p);
    if b != p && b != g.objectIdx {
      var l := RawIfGeneric(g, b);
      if g.nodes[b].kind.Generic? {
        RawAssignableBothWays(g, fuel - 1, l, b);
      } else {
        AssignableReflexive(g, fuel - 1, b);
      }
      assert AreClassTypesAssignable(g, fuel - 1, l, b);
    }
    assert AreClassTypesAssignableNoSupers(g, fuel - 1, b, p);
  }

  /** Compared directly (without the supertypes of `rhs`), a wildcard on the left,
      facing a type that is neither a wildcard nor a type parameter: `? extends T`
      needs T assignable from it, `? super T` matches it. */
  lemma WildcardTarget(g: Graph, fuel: nat, lhs: nat, rhs: nat)
    requires g.WellFormed() && g.IsClassType(lhs) && g.IsClassType(rhs) && lhs != rhs
    requires g.nodes[lhs].kind.Wildcard?
    requires !g.nodes[rhs].kind.Wildcard? && !g.nodes[rhs].kind.TypeParam?
    ensures AreClassTypesAssignableNoSupers(g, fuel, lhs, rhs) ==
      if g.nodes[lhs].kind.upper
      then AreClassTypesAssignable(g, fuel, g.FirstBound(lhs), RawIfGeneric(g, rhs))
      else true
  {
  }

  /** For the whole procedure, a top-level `? super T` target is assignable from
      every source whose flattened hierarchy reaches Object: the supertype loop
      tries Object, which the wildcard rule accepts. This holds for a type
      parameter without bounds too, which the direct comparison rejects. */
  lemma LowerWildcardFromObjectSubtype(g: Graph, fuel: nat, lhs: nat, rhs: nat)
    requires g.WellFormed() && g.IsClassType(lhs) && g.IsClassType(rhs) && fuel > 0
    requires g.nodes[lhs].kind.Wildcard? && !g.nodes[lhs].kind.upper
    requires g.objectIdx in Ancestors(g, rhs)
    ensures IsAssignableFrom(g, fuel, lhs, rhs)
  {
    assert AreClassTypesAssignableNoSupers(g, fuel - 1, lhs, g.objectIdx);
  }
}
