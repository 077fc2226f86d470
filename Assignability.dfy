/** The assignability decision procedure of JClassType: may a value whose type is
    `rhs` be stored in a location whose type is `lhs`?

    The Java methods call each other without a bound, and on a graph whose
    type-parameter bounds mention their own declaring type the recursion need not
    end. Every function here therefore takes a `fuel` argument: each call of
    `AreClassTypesAssignable` spends one unit, and when none is left the answer is
    `false`. None of the rules negates the result of a recursive call, so more fuel
    can only turn `false` into `true` (see `AssignabilityProperties`), and an answer
    `true` means the Java procedure can answer `true` after that many nested calls. */
module Assignability {
  import opened TypeGraph
  import opened Hierarchy

  /** The generic-to-raw reduction: a generic declaration is compared as its raw view. */
  function RawIfGeneric(g: Graph, t: nat): (r: nat)
    requires g.WellFormed() && g.IsClassType(t)
    ensures g.IsClassType(r)
    ensures g.nodes[t].kind.Generic? ==> g.nodes[r].kind == Raw(t)
    ensures !g.nodes[t].kind.Generic? ==> r == t
  {
    if g.nodes[t].kind.Generic? then
      assert g.NodeWellFormed(t);
      g.nodes[t].kind.raw
    else
      t
  }

  /** JClassType.areClassTypesAssignable: some type in the flattened supertype
      hierarchy of `rhs` (`rhs` included) is assignable to `lhs` on its own terms. */
  ghost function AreClassTypesAssignable(g: Graph, fuel: nat, lhs: nat, rhs: nat): (r: bool)
    requires g.WellFormed() && g.IsClassType(lhs) && g.IsClassType(rhs)
    ensures r ==> fuel > 0
    ensures fuel > 0 && (lhs == rhs || lhs == g.objectIdx) ==> r
    decreases fuel, 0
  {
    if fuel == 0 then
      false
    else
      AncestorsAreClassTypes(g, rhs);
      AncestorsContainStart(g, rhs);
      assert lhs == rhs || lhs == g.objectIdx ==> AreClassTypesAssignableNoSupers(g, fuel - 1, lhs, rhs);
      exists s :: s in Ancestors(g, rhs) && AreClassTypesAssignableNoSupers(g, fuel - 1, lhs, s)
  }

  /** JClassType.areClassTypesAssignableNoSupers: the rules that compare `lhs` and
      `rhs` as declared, in the order the source tries them. */
  ghost function AreClassTypesAssignableNoSupers(g: Graph, fuel: nat, lhs: nat, rhs: nat): (r: bool)
    requires g.WellFormed() && g.IsClassType(lhs) && g.IsClassType(rhs)
    ensures lhs == rhs || lhs == g.objectIdx ==> r
    decreases fuel, 4
  {
    if lhs == rhs then
      true    // the same type
    else if lhs == g.objectIdx then
      true    // anything can be assigned to java.lang.Object
    else
      var l := RawIfGeneric(g, lhs);
      var r := RawIfGeneric(g, rhs);
      var lk := g.nodes[l].kind;
      var rk := g.nodes[r].kind;
      if lk.TypeParam? then
        // assignable to every bound of the type parameter
        forall b :: b in g.Bounds(l) ==> AreClassTypesAssignable(g, fuel, b, r)
      else if rk.TypeParam? then
        // some bound of the type parameter is assignable
        exists b :: b in g.Bounds(r) && AreClassTypesAssignable(g, fuel, l, b)
      else if lk.Wildcard? && rk.Wildcard? then
        AreWildcardsAssignable(g, fuel, l, r)
      else if lk.Wildcard? then
        // `? extends T` needs T; `? super T` accepts anything
        if lk.upper then AreClassTypesAssignable(g, fuel, g.FirstBound(l), r) else true
      else if lk.Array? then
        rk.Array? && AreArraysAssignable(g, fuel, l, r)
      else if rk.Array? then
        false
      else if lk.IsMaybeParameterized() && rk.IsMaybeParameterized() && lk.base == rk.base then
        // a raw type is assignable to and from every parameterization of its base
        if lk.Raw? || rk.Raw? then true else AreTypeArgumentsAssignable(g, fuel, l, r)
      else
        false
  }

  /** JClassType.areArraysAssignable: arrays of reference types are covariant;
      an array of a primitive type is assignable only from itself. */
  ghost function AreArraysAssignable(g: Graph, fuel: nat, lhs: nat, rhs: nat): (r: bool)
    requires g.WellFormed() && lhs < |g.nodes| && rhs < |g.nodes| && lhs != rhs
    requires g.nodes[lhs].kind.Array? && g.nodes[rhs].kind.Array?
    ensures r ==> fuel > 0
    ensures r ==> !g.nodes[g.Component(lhs)].kind.Primitive? && !g.nodes[g.Component(rhs)].kind.Primitive?
    decreases fuel, 3
  {
    var lc := g.Component(lhs);
    var rc := g.Component(rhs);
    if g.nodes[lc].kind.Primitive? || g.nodes[rc].kind.Primitive? then
      false
    else
      AreClassTypesAssignable(g, fuel, lc, rc)
  }

  /** JClassType.areTypeArgumentsAssignable: every argument of `lhs`, up to the
      number of parameters the base declares, contains the argument of `rhs`. */
  ghost function AreTypeArgumentsAssignable(g: Graph, fuel: nat, lhs: nat, rhs: nat): (r: bool)
    requires g.WellFormed() && lhs < |g.nodes| && rhs < |g.nodes| && lhs != rhs
    requires g.nodes[lhs].kind.Parameterized? && g.nodes[rhs].kind.Parameterized?
    requires g.nodes[lhs].kind.base == g.nodes[rhs].kind.base
    ensures r ==> forall i :: 0 <= i < g.TypeParamCount(lhs) ==>
      g.TypeArgs(lhs)[i] == g.TypeArgs(rhs)[i] || g.nodes[g.TypeArgs(lhs)[i]].kind.Wildcard?
    ensures g.TypeArgs(lhs)[..g.TypeParamCount(lhs)] == g.TypeArgs(rhs)[..g.TypeParamCount(lhs)] ==> r
    decreases fuel, 3
  {
    var la := g.TypeArgs(lhs);
    var ra := g.TypeArgs(rhs);
    assert forall i :: 0 <= i < g.TypeParamCount(lhs) && la[..g.TypeParamCount(lhs)] == ra[..g.TypeParamCount(lhs)] ==>
      la[..g.TypeParamCount(lhs)][i] == la[i] == ra[i];
    forall i :: 0 <= i < g.TypeParamCount(lhs) ==> DoesTypeArgumentContain(g, fuel, la[i], ra[i])
  }

  /** JClassType.areWildcardsAssignable: `? extends T` from `? extends U` needs T
      from U; `? super T` from `? super U` needs U from T; a mixed pair never. */
  ghost function AreWildcardsAssignable(g: Graph, fuel: nat, lhs: nat, rhs: nat): (r: bool)
    requires g.WellFormed() && lhs < |g.nodes| && rhs < |g.nodes| && lhs != rhs
    requires g.nodes[lhs].kind.Wildcard? && g.nodes[rhs].kind.Wildcard?
    ensures r ==> fuel > 0
    ensures r ==> g.nodes[lhs].kind.upper == g.nodes[rhs].kind.upper
    decreases fuel, 1
  {
    var lk := g.nodes[lhs].kind;
    var rk := g.nodes[rhs].kind;
    if lk.upper && rk.upper then
      AreClassTypesAssignable(g, fuel, g.FirstBound(lhs), g.FirstBound(rhs))
    else if !lk.upper && !rk.upper then
      AreClassTypesAssignable(g, fuel, g.FirstBound(rhs), g.FirstBound(lhs))
    else
      false
  }

  /** JClassType.doesTypeArgumentContain: an argument that is not a wildcard
      contains only itself; a wildcard contains per its bound. */
  ghost function DoesTypeArgumentContain(g: Graph, fuel: nat, lhs: nat, rhs: nat): (r: bool)
    requires g.WellFormed() && g.IsClassType(lhs) && g.IsClassType(rhs)
    ensures lhs == rhs ==> r
    ensures r ==> lhs == rhs || (fuel > 0 && g.nodes[lhs].kind.Wildcard?)
    decreases fuel, 2
  {
    if lhs == rhs then
      true
    else
      var lk := g.nodes[lhs].kind;
      var rk := g.nodes[rhs].kind;
      if lk.Wildcard? then
        if rk.Wildcard? then
          AreWildcardsAssignable(g, fuel, lhs, rhs)
        else
          if lk.upper then AreClassTypesAssignable(g, fuel, g.FirstBound(lhs), rhs)
          else AreClassTypesAssignable(g, fuel, rhs, g.FirstBound(lhs))
      else
        false
  }

  /** JClassType.isAssignableFrom: `possibleSubtype` can be assigned to `t`. */
  ghost function IsAssignableFrom(g: Graph, fuel: nat, t: nat, possibleSubtype: nat): (r: bool)
    requires g.WellFormed() && g.IsClassType(t) && g.IsClassType(possibleSubtype)
    ensures fuel > 0 && (possibleSubtype == t || t == g.objectIdx) ==> r
    ensures r ==> fuel > 0
  {
    AreClassTypesAssignable(g, fuel, t, possibleSubtype)
  }

  /** JClassType.isAssignableTo: `t` can be assigned to `possibleSupertype`,
      the same question asked from the other side. */
  ghost function IsAssignableTo(g: Graph, fuel: nat, t: nat, possibleSupertype: nat): (r: bool)
    requires g.WellFormed() && g.IsClassType(t) && g.IsClassType(possibleSupertype)
    ensures r == IsAssignableFrom(g, fuel, possibleSupertype, t)
  {
    AreClassTypesAssignable(g, fuel, possibleSupertype, t)
  }
}
