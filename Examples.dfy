/** A small type graph and what the oracle answers on it: wildcard variance,
    invariance of type arguments, array covariance and its primitive exception,
    the raw bridge, a type parameter bounded by a parameterization of its own
    declaring type (`F extends Comparable<F>`), and an interface diamond that the
    flattener reaches twice. */
module Examples {
  import opened TypeGraph
  import opened Hierarchy
  import opened Assignability
  import opened AssignabilityProperties

  const Object := 0
  const Number := 1
  const Integer := 2
  const G := 3                  // a generic class G<T>
  const T := 4                  // its type parameter
  const GRaw := 5               // G used raw
  const ExtendsNumber := 6      // ? extends Number
  const GExtendsNumber := 7     // G<? extends Number>
  const GInteger := 8           // G<Integer>
  const SuperInteger := 9       // ? super Integer
  const GSuperInteger := 10     // G<? super Integer>
  const GNumber := 11           // G<Number>
  const Int := 12               // int
  const ObjectArray := 13       // Object[]
  const IntegerArray := 14      // Integer[]
  const IntArray := 15          // int[]
  const Comparable := 16        // a generic interface Comparable<F extends Comparable<F>>
  const F := 17                 // its type parameter
  const ComparableRaw := 18     // Comparable used raw
  const ComparableOfF := 19     // Comparable<F>
  const J := 20                 // an interface
  const I1 := 21                // an interface extending J
  const I2 := 22                // another interface extending J
  const C := 23                 // a class implementing I1 and I2

  /** The sample graph: node `i` is `SampleNode(i)`. */
  predicate IsSample(g: Graph) {
    |g.nodes| == 24 && g.objectIdx == Object &&
    forall i :: 0 <= i < 24 ==> g.nodes[i] == SampleNode(i)
  }

  /** The sample graph exists. */
  function Sample(): (g: Graph)
    ensures IsSample(g)
  {
    Graph(seq(24, i => SampleNode(i)), Object)
  }

  /** Node `i` of the sample graph. Type parameters follow one convention: a
      type parameter is linked to its bound the way a class is linked to what it
      extends, a class bound (Object for T) as its superclass and an interface
      bound (Comparable<F> for F) as an implemented interface. This stands for a
      graph builder that gives a type variable its bounds as supertypes. */
  function SampleNode(i: int): Node {
    var extendsObject := Some(Object);
    if i == Object then Node(ClassOrIntf, None, [])
    else if i == Number then Node(ClassOrIntf, extendsObject, [])
    else if i == Integer then Node(ClassOrIntf, Some(Number), [])
    else if i == G then Node(Generic([T], GRaw), extendsObject, [])
    else if i == T then Node(TypeParam([Object]), extendsObject, [])
    else if i == GRaw then Node(Raw(G), extendsObject, [])
    else if i == ExtendsNumber then Node(Wildcard(true, Number), None, [])
    else if i == GExtendsNumber then Node(Parameterized(G, [ExtendsNumber]), extendsObject, [])
    else if i == GInteger then Node(Parameterized(G, [Integer]), extendsObject, [])
    else if i == SuperInteger then Node(Wildcard(false, Integer), None, [])
    else if i == GSuperInteger then Node(Parameterized(G, [SuperInteger]), extendsObject, [])
    else if i == GNumber then Node(Parameterized(G, [Number]), extendsObject, [])
    else if i == Int then Node(Primitive, None, [])
    else if i == ObjectArray then Node(Array(Object), extendsObject, [])
    else if i == IntegerArray then Node(Array(Integer), extendsObject, [])
    else if i == IntArray then Node(Array(Int), extendsObject, [])
    else if i == Comparable then Node(Generic([F], ComparableRaw), None, [])
    else if i == F then Node(TypeParam([ComparableOfF]), None, [ComparableOfF])
    else if i == ComparableRaw then Node(Raw(Comparable), None, [])
    else if i == ComparableOfF then Node(Parameterized(Comparable, [F]), None, [])
    else if i == J then Node(ClassOrIntf, None, [])
    else if i == I1 then Node(ClassOrIntf, None, [J])
    else if i == I2 then Node(ClassOrIntf, None, [J])
    else Node(ClassOrIntf, extendsObject, [I1, I2])
  }

  lemma SampleWellFormed(g: Graph)
    requires IsSample(g)
    ensures g.WellFormed()
  {
    forall i | 0 <= i < |g.nodes| ensures g.NodeWellFormed(i) {
      SampleNodeWellFormed(g, i);
    }
  }

  lemma SampleNodeWellFormed(g: Graph, i: nat)
    requires IsSample(g) && i < 24
    ensures g.NodeWellFormed(i)
  {
    if i < 10 {
      FirstNodesWellFormed(g, i);
    } else if i < 20 {
      MiddleNodesWellFormed(g, i);
    } else {
      LastNodesWellFormed(g, i);
    }
  }

  /** The well-formedness of the nodes is checked in three parts, to keep each proof small. */
  lemma FirstNodesWellFormed(g: Graph, i: nat)
    requires IsSample(g) && i < 10
    ensures g.NodeWellFormed(i)
  {
    assert g.nodes[i] == SampleNode(i);
  }

  lemma MiddleNodesWellFormed(g: Graph, i: nat)
    requires IsSample(g) && 10 <= i < 20
    ensures g.NodeWellFormed(i)
  {
    assert g.nodes[i] == SampleNode(i);
  }

  lemma LastNodesWellFormed(g: Graph, i: nat)
    requires IsSample(g) && 20 <= i < 24
    ensures g.NodeWellFormed(i)
  {
    assert g.nodes[i] == SampleNode(i);
  }

  /** The hierarchy of a node whose only supertype is Object is that node and Object. */
  lemma AncestorsBelowObject(g: Graph, t: nat)
    requires IsSample(g) && t < 24 && g.nodes[t].superclass == Some(Object) && g.nodes[t].intfs == []
    ensures g.WellFormed()
    ensures Ancestors(g, t) == {t, Object}
  {
    SampleWellFormed(g);
    assert Closed(g, {t, Object}) by {
      assert g.Succs(t) == {Object};
      assert g.Succs(Object) == {};
    }
    AncestorsMinimal(g, t, {t, Object});
    AncestorsContainStart(g, t);
    SuccessorAncestors(g, t, Object);
  }

  lemma NumberAboveInteger(g: Graph)
    requires IsSample(g)
    ensures Number in Ancestors(g, Integer)
  {
    SampleWellFormed(g);
    SuccessorAncestors(g, Integer, Number);
  }

  /** G<? extends Number> is assignable from G<Integer>. */
  lemma UpperWildcardCovariance(g: Graph)
    requires IsSample(g)
    ensures g.WellFormed()
    ensures IsAssignableFrom(g, 3, GExtendsNumber, GInteger)
  {
    SampleWellFormed(g);
    NumberAboveInteger(g);
    AssignableFromAncestor(g, 2, Number, Integer);
    ArgumentsWithinWildcards(g, 2, GExtendsNumber, GInteger);
  }

  /** G<Integer> is not assignable from G<? extends Number>, however much fuel. */
  lemma UpperWildcardNotInvertible(g: Graph, fuel: nat)
    requires IsSample(g)
    ensures g.WellFormed()
    ensures !IsAssignableFrom(g, fuel, GInteger, GExtendsNumber)
  {
    AncestorsBelowObject(g, GExtendsNumber);
    ParameterizationsInvariant(g, fuel, GInteger, GExtendsNumber, 0);
  }

  /** G<? super Integer> is assignable from G<Number>. */
  lemma LowerWildcardContravariance(g: Graph)
    requires IsSample(g)
    ensures g.WellFormed()
    ensures IsAssignableFrom(g, 3, GSuperInteger, GNumber)
  {
    SampleWellFormed(g);
    NumberAboveInteger(g);
    AssignableFromAncestor(g, 2, Number, Integer);
    ArgumentsWithinWildcards(g, 2, GSuperInteger, GNumber);
  }

  /** Without wildcards the arguments must be identical: G<Number> is not assignable
      from G<Integer> although Number is assignable from Integer. */
  lemma ArgumentsAreInvariant(g: Graph, fuel: nat)
    requires IsSample(g)
    ensures g.WellFormed()
    ensures IsAssignableFrom(g, 1, Number, Integer)
    ensures !IsAssignableFrom(g, fuel, GNumber, GInteger)
  {
    SampleWellFormed(g);
    NumberAboveInteger(g);
    AssignableFromAncestor(g, 1, Number, Integer);
    AncestorsBelowObject(g, GInteger);
    ParameterizationsInvariant(g, fuel, GNumber, GInteger, 0);
  }

  /** Object[] is assignable from Integer[]. */
  lemma ReferenceArraysCovariant(g: Graph)
    requires IsSample(g)
    ensures g.WellFormed()
    ensures IsAssignableFrom(g, 2, ObjectArray, IntegerArray)
  {
    SampleWellFormed(g);
    AssignableToObject(g, 1, Integer);
    ArrayCovariance(g, 1, ObjectArray, IntegerArray);
    AncestorsContainStart(g, IntegerArray);
  }

  /** Object[] is not assignable from int[], however much fuel. */
  lemma PrimitiveArrayNotObjectArray(g: Graph, fuel: nat)
    requires IsSample(g)
    ensures g.WellFormed()
    ensures !IsAssignableFrom(g, fuel, ObjectArray, IntArray)
  {
    SampleWellFormed(g);
    if fuel > 0 {
      AncestorsBelowObject(g, IntArray);
      PrimitiveArraysNotAssignable(g, fuel - 1, ObjectArray, IntArray);
      ArrayNotFromNonArray(g, fuel - 1, ObjectArray, Object);
    }
  }

  /** The raw G and G<Integer> are assignable both ways, and so are G itself and G<Number>. */
  lemma RawBridge(g: Graph)
    requires IsSample(g)
    ensures g.WellFormed()
    ensures IsAssignableFrom(g, 1, GRaw, GInteger) && IsAssignableFrom(g, 1, GInteger, GRaw)
    ensures IsAssignableFrom(g, 1, G, GNumber) && IsAssignableFrom(g, 1, GNumber, G)
  {
    SampleWellFormed(g);
    RawAssignableBothWays(g, 1, GRaw, GInteger);
    RawAssignableBothWays(g, 1, G, GNumber);
  }

  /** F extends Comparable<F>: the F inside the bound Comparable<F> is a type
      argument, not a supertype edge, so the walk stops at Comparable<F> and F's
      hierarchy is F and Comparable<F>; F is assignable to itself and to its bound. */
  lemma SelfReferentialBound(g: Graph)
    requires IsSample(g)
    ensures g.WellFormed()
    ensures Ancestors(g, F) == {F, ComparableOfF}
    ensures IsAssignableFrom(g, 1, F, F)
    ensures IsAssignableFrom(g, 2, ComparableOfF, F)
  {
    SampleWellFormed(g);
    assert Closed(g, {F, ComparableOfF}) by {
      assert g.Succs(F) == {ComparableOfF};
      assert g.Succs(ComparableOfF) == {};
    }
    AncestorsMinimal(g, F, {F, ComparableOfF});
    AncestorsContainStart(g, F);
    SuccessorAncestors(g, F, ComparableOfF);
    AssignableReflexive(g, 1, F);
    TypeParamAssignableToBound(g, 2, F, ComparableOfF);
  }

  /** The walk itself, run on F: it returns F's hierarchy. */
  method FlattenF(g: Graph) returns (types: set<nat>)
    requires IsSample(g)
    ensures types == {F, ComparableOfF}
  {
    SampleWellFormed(g);
    SelfReferentialBound(g);
    types := GetFlattenedSuperTypeHierarchy(g, F);
  }

  /** Each side of the diamond: the hierarchy of I1 (and of I2) is itself and J. */
  lemma DiamondSide(g: Graph, i: nat)
    requires IsSample(g) && (i == I1 || i == I2)
    ensures g.WellFormed()
    ensures Ancestors(g, i) == {i, J}
  {
    SampleWellFormed(g);
    assert Closed(g, {i, J}) by {
      assert g.Succs(i) == {J} && g.Succs(J) == {};
    }
    AncestorsMinimal(g, i, {i, J});
    AncestorsContainStart(g, i);
    SuccessorAncestors(g, i, J);
  }

  /** The diamond C <: I1 <: J, C <: I2 <: J: the hierarchy of C holds J once. */
  lemma DiamondHierarchy(g: Graph)
    requires IsSample(g)
    ensures g.WellFormed()
    ensures Ancestors(g, C) == {C, Object, I1, I2, J}
  {
    SampleWellFormed(g);
    DiamondClosed(g);
    AncestorsMinimal(g, C, {C, Object, I1, I2, J});
    AncestorsContainStart(g, C);
    SuccessorAncestors(g, C, Object);
    SuccessorAncestors(g, C, I1);
    DiamondSide(g, I1);
    SuccessorAncestors(g, C, I2);
  }

  lemma DiamondClosed(g: Graph)
    requires IsSample(g)
    ensures Closed(g, {C, Object, I1, I2, J})
  {
    assert g.Succs(C) == {Object, I1, I2};
    assert g.Succs(I1) == {J} && g.Succs(I2) == {J};
    assert g.Succs(J) == {} && g.Succs(Object) == {};
  }

  /** J is assignable from each side of the diamond. */
  lemma DiamondSidesAssignable(g: Graph)
    requires IsSample(g)
    ensures g.WellFormed()
    ensures AreClassTypesAssignable(g, 1, J, I1) && AreClassTypesAssignable(g, 1, J, I2)
  {
    SampleWellFormed(g);
    SuccessorAncestors(g, I1, J);
    SuccessorAncestors(g, I2, J);
    AssignableFromAncestor(g, 1, J, I1);
    AssignableFromAncestor(g, 1, J, I2);
  }

  /** J is assignable from C, through a side of the diamond. */
  lemma DiamondAssignable(g: Graph)
    requires IsSample(g)
    ensures g.WellFormed()
    ensures IsAssignableFrom(g, 1, J, C)
  {
    DiamondSidesAssignable(g);
    SuccessorAncestors(g, C, I1);
    AssignableFromSubtype(g, 1, J, I1, C);
  }

  /** The walk run on C: J is reached from I1 first, and from I2 the visited
      set turns the walk back; the result is C's hierarchy. */
  method FlattenC(g: Graph) returns (types: set<nat>)
    requires IsSample(g)
    ensures types == {C, Object, I1, I2, J}
  {
    DiamondHierarchy(g);
    types := GetFlattenedSuperTypeHierarchy(g, C);
  }
}
