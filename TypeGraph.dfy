/** The compile-time type graph the assignability oracle reads.

    Every type descriptor is a node of an arena and is addressed by its index,
    so that the identity comparisons of the Java code (`lhsType == rhsType`)
    become index equality. The graph is built elsewhere and never changes. */
module TypeGraph {

  datatype Option<T> = None | Some(value: T)

  /** The variant of a type descriptor (the `isXxx()` down-casts of JClassType). */
  datatype Kind =
    | ClassOrIntf                                 // a plain class or interface
    | Generic(params: seq<nat>, raw: nat)          // a generic declaration and its raw view
    | Parameterized(base: nat, args: seq<nat>)     // a generic declaration applied to arguments
    | Raw(base: nat)                               // a generic declaration used without arguments
    | TypeParam(bounds: seq<nat>)                  // a type variable and its upper bounds
    | Wildcard(upper: bool, first: nat)            // `? extends first` or `? super first`
    | Array(comp: nat)                             // an array and its component type
    | Primitive                                    // a primitive type, only ever an array component
  {
    /** JParameterizedType and JRawType are the two JMaybeParameterizedType views. */
    predicate IsMaybeParameterized() { Parameterized? || Raw? }
  }

  /** A node: its kind plus its superclass and implemented-interface edges. */
  datatype Node = Node(kind: Kind, superclass: Option<nat>, intfs: seq<nat>)

  /** The arena and the node standing for `java.lang.Object`. */
  datatype Graph = Graph(nodes: seq<Node>, objectIdx: nat) {

    /** A node that Java types as a JClassType: any node but a primitive. */
    predicate IsClassType(i: nat) {
      i < |nodes| && !nodes[i].kind.Primitive?
    }

    /** What the graph builder guarantees about node `i`: every reference is
        to a node of the arena, and of the Java type the source declares for it. */
    predicate NodeWellFormed(i: nat)
      requires i < |nodes|
    {
      var n := nodes[i];
      (n.superclass.Some? ==> IsClassType(n.superclass.value)) &&
      (forall j :: j in n.intfs ==> IsClassType(j)) &&
      match n.kind
      case ClassOrIntf => true
      case Generic(params, raw) =>
        (forall p :: p in params ==> IsClassType(p)) &&
        raw < |nodes| && nodes[raw].kind == Raw(i)
      case Parameterized(base, args) =>
        // At least as many arguments as the base declares parameters.
        base < |nodes| && nodes[base].kind.Generic? &&
        |args| >= |nodes[base].kind.params| &&
        (forall a :: a in args ==> IsClassType(a))
      case Raw(base) => base < |nodes| && nodes[base].kind.Generic?
      case TypeParam(bounds) => forall b :: b in bounds ==> IsClassType(b)
      case Wildcard(_, first) => IsClassType(first)
      case Array(comp) => comp < |nodes|
      case Primitive => true
    }

    predicate WellFormed() {
      objectIdx < |nodes| && nodes[objectIdx].kind == ClassOrIntf &&
      forall i :: 0 <= i < |nodes| ==> NodeWellFormed(i)
    }

    /** The bounds of type parameter `p`. */
    function Bounds(p: nat): (bounds: seq<nat>)
      requires WellFormed() && p < |nodes| && nodes[p].kind.TypeParam?
      ensures bounds == nodes[p].kind.bounds
      ensures forall b :: b in bounds ==> IsClassType(b)
    {
      assert NodeWellFormed(p);
      nodes[p].kind.bounds
    }

    /** The bound of wildcard `w` (JBound.getFirstBound). */
    function FirstBound(w: nat): (b: nat)
      requires WellFormed() && w < |nodes| && nodes[w].kind.Wildcard?
      ensures b == nodes[w].kind.first && IsClassType(b)
    {
      assert NodeWellFormed(w);
      nodes[w].kind.first
    }

    /** The component type of array `a`. */
    function Component(a: nat): (c: nat)
      requires WellFormed() && a < |nodes| && nodes[a].kind.Array?
      ensures c == nodes[a].kind.comp && c < |nodes|
    {
      assert NodeWellFormed(a);
      nodes[a].kind.comp
    }

    /** The number of type parameters the base declaration of `p` declares. */
    function TypeParamCount(p: nat): nat
      requires WellFormed() && p < |nodes| && nodes[p].kind.Parameterized?
    {
      assert NodeWellFormed(p);
      |nodes[nodes[p].kind.base].kind.params|
    }

    /** The type arguments of parameterized type `p`: at least one per type
        parameter of its base. */
    function TypeArgs(p: nat): (args: seq<nat>)
      requires WellFormed() && p < |nodes| && nodes[p].kind.Parameterized?
      ensures args == nodes[p].kind.args
      ensures |args| >= TypeParamCount(p)
      ensures forall i :: 0 <= i < |args| ==> IsClassType(args[i])
    {
      assert NodeWellFormed(p);
      nodes[p].kind.args
    }

    /** The generic declaration node `t` stands for, if any: itself when it is
        one, its base when it is a parameterization or a raw view. */
    function GenericBase(t: nat): Option<nat>
      requires t < |nodes|
    {
      match nodes[t].kind
      case Generic(_, _) => Some(t)
      case Parameterized(base, _) => Some(base)
      case Raw(base) => Some(base)
      case _ => None
    }

    /** The direct supertypes of node `t`: its superclass, if any, and its interfaces. */
    function Succs(t: nat): (s: set<nat>)
      requires t < |nodes|
      ensures forall j :: j in nodes[t].intfs ==> j in s
      ensures nodes[t].superclass.Some? ==> nodes[t].superclass.value in s
      ensures forall j :: j in s ==> j in nodes[t].intfs || nodes[t].superclass == Some(j)
    {
      var n := nodes[t];
      (if n.superclass.Some? then {n.superclass.value} else {}) + (set j | j in n.intfs)
    }

    /** All indices of the arena. */
    function Indices(): (s: set<nat>)
      ensures forall i: nat :: i in s <==> i < |nodes|
      ensures |s| == |nodes|
    {
      IndicesBelow(|nodes|)
    }
  }

  function IndicesBelow(n: nat): (s: set<nat>)
    ensures forall i: nat :: i in s <==> i < n
    ensures |s| == n
  {
    if n == 0 then {} else IndicesBelow(n - 1) + {n - 1}
  }
}
