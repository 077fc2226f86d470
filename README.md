# GWT type-oracle assignability, modelled in Dafny

GWT's generator infrastructure asks its type oracle whether a value of one
compile-time type may be stored in a location of another
(`JClassType.isAssignableFrom` / `isAssignableTo`). The answer comes from two
pieces of `JClassType`:

- the **flattener**, `getFlattenedSuperTypeHierarchy`. It walks a type's
  superclass and implemented-interface edges depth first and collects the type
  and all of its supertypes into a visited set. The same set stops the walk
  from re-entering a type it has already seen.
- the **decision procedure**, `areClassTypesAssignable`. It succeeds when some
  member of the source type's flattened hierarchy is assignable to the target
  "on its own terms" (`areClassTypesAssignableNoSupers`). Those terms are a
  chain of rules: identity, the `java.lang.Object` sink, generic-to-raw
  reduction, type parameters on either side, wildcards, arrays, and
  raw/parameterized types of one generic base. Type arguments are compared
  by containment (`doesTypeArgumentContain`, `areWildcardsAssignable`).

The model is laid out in five modules:

- `TypeGraph` is the type graph. Every type descriptor is a node of an
  arena and is addressed by its index, so the Java identity tests (`==`)
  become index equality. A `Kind` says which descriptor a node is: plain
  class or interface, generic declaration, parameterization, raw type, type
  parameter, wildcard, array or primitive. `WellFormed` states what the
  graph builder guarantees.
- `Hierarchy` models the flattener as an imperative method that threads the
  visited set through the recursion. It proves that the method returns
  exactly `Ancestors(g, t)`, the least set that contains `t` and is closed
  under supertype edges. It also proves that each visited node was inserted
  exactly once and that the walk terminates, including on cyclic graphs.
- `Assignability` states the decision procedure as ghost functions that
  follow the Java branches in order. Each function takes a `fuel` bound on
  the nesting of `areClassTypesAssignable` calls, and fuel 0 answers
  `false`.
- `AssignabilityProperties` proves the properties of the procedure. The
  answer is monotone in fuel, so an answer `true` is never retracted by
  deeper search. It also proves reflexivity, the Object sink, inheritance
  through the flattened hierarchy, the raw bridge, invariance of plain type
  arguments (for sources that do not inherit from their own generic base), wildcard co- and contravariance, array covariance with the
  primitive exception, and the two type-parameter expansions.
- `Examples` builds a concrete graph and derives the oracle's answers on it:
  - `G<? extends Number>` is assignable from `G<Integer>`, and not the
    reverse;
  - `G<? super Integer>` is assignable from `G<Number>`;
  - `G<Number>` is not assignable from `G<Integer>`;
  - `Object[]` is assignable from `Integer[]` but not from `int[]`;
  - the raw bridge holds in both directions;
  - a type parameter `F extends Comparable<F>`, whose bound mentions F
    again, has the hierarchy `{F, Comparable<F>}` and is assignable to its
    own bound;
  - in an interface diamond, where class `C` implements `I1` and `I2` and
    both extend `J`, the flattener reaches `J` twice and the visited set
    turns the second visit back. The result is `{C, Object, I1, I2, J}`,
    and `J` is assignable from `C`.

Two behaviours of the code are worth noting:

- **Type-argument counts.** The code compares only as many arguments as the
  base declares parameters. Any surplus that `gwt.typeArgs` adds is ignored
  (JClassType.java:227-235). The graph therefore requires at least that many
  arguments.
- **Empty bound lists.** An empty bound list is not rejected. A type
  parameter without bounds, as the target, is assignable from every other
  class type (JClassType.java:126-137). As the source, compared directly
  (areClassTypesAssignableNoSupers, without its own supertypes), it matches
  no target that reaches the source-side bound rule (JClassType.java:138-147).
  Every target reaches that rule except:
  - the parameter itself and `java.lang.Object`, which are tried first;
  - a type parameter, whose target rule comes before it.
  The whole procedure also tries the parameter's supertypes
  (JClassType.java:77-88), so a graph that gives it `java.lang.Object` as
  superclass makes it assignable, for instance, to a `? super Y` target
  (LowerWildcardFromObjectSubtype).

## Model

| member | source | states |
|---|---|---|
| Hierarchy.GetFlattenedSuperTypeHierarchy | dev/core/src/com/google/gwt/core/ext/typeinfo/JClassType.java:35-40 | returns exactly the type together with every superclass and superinterface reachable from it, i.e. the least supertype-closed set containing it |
| Hierarchy.GetFlattenedSuperTypeHierarchyRecursive | dev/core/src/com/google/gwt/core/ext/typeinfo/JClassType.java:304-322 | a type already seen leaves the visited set unchanged; otherwise the set grows only by ancestors of the type, ends up holding the type with all its direct supertypes for every node it added, and grows by one per insertion (no node inserted twice); the recursion terminates on cyclic graphs because each call marks one more node |
| Hierarchy.AncestorsUnfold | dev/core/src/com/google/gwt/core/ext/typeinfo/JClassType.java:304-322 | the flattened hierarchy of a type is the type plus the flattened hierarchies of its superclass and of each implemented interface, the recursion the walk performs |
| Hierarchy.AncestorsClosed | dev/core/src/com/google/gwt/core/ext/typeinfo/JClassType.java:31-40 | the flattened hierarchy contains the direct supertypes of each of its members |
| Hierarchy.AncestorsTransitive | dev/core/src/com/google/gwt/core/ext/typeinfo/JClassType.java:31-40 | the hierarchy of any supertype is contained in the hierarchy of the type |
| Hierarchy.AncestorsAreClassTypes | dev/core/src/com/google/gwt/core/ext/typeinfo/JClassType.java:35-37 | every member of the hierarchy of a class type is a class type (never a primitive) |
| Assignability.RawIfGeneric | dev/core/src/com/google/gwt/core/ext/typeinfo/JClassType.java:110-121 | a generic declaration is replaced by its raw view, and every other type is left as it is |
| Assignability.AreClassTypesAssignable | dev/core/src/com/google/gwt/core/ext/typeinfo/JClassType.java:77-88 | answers `true` only with fuel left, and always for identical types and for an Object target. Its other properties are proved by AssignableFromAncestor, AssignableFromSubtype and ClassTypesMonotone |
| Assignability.AreClassTypesAssignableNoSupers | dev/core/src/com/google/gwt/core/ext/typeinfo/JClassType.java:98-210 | identical types and an Object target are always assignable. The rule-by-rule behaviour is proved by TypeParamTarget, TypeParamSource, WildcardTarget, MixedWildcardsNeverAssignable, ArrayCovariance, PrimitiveArraysNotAssignable, ArrayNotFromNonArray, NonArrayNotFromArray, RawNoSupers and SameBaseParameterized |
| Assignability.AreArraysAssignable | dev/core/src/com/google/gwt/core/ext/typeinfo/JClassType.java:46-72 | answers `true` only when neither component is primitive and fuel is left. Covariance is proved by ArrayCovariance |
| Assignability.AreTypeArgumentsAssignable | dev/core/src/com/google/gwt/core/ext/typeinfo/JClassType.java:216-238 | `true` only when every argument at a declared position is equal to the source's or is a wildcard; identical arguments at the declared positions always give `true`. SameBaseParameterized and DistinctArgumentsNotAssignable state the rest |
| Assignability.AreWildcardsAssignable | dev/core/src/com/google/gwt/core/ext/typeinfo/JClassType.java:244-266 | `true` only for two wildcards bounded in the same direction. The bound comparison is proved by SameDirectionWildcards |
| Assignability.DoesTypeArgumentContain | dev/core/src/com/google/gwt/core/ext/typeinfo/JClassType.java:273-302 | every argument contains itself, and an argument that is not a wildcard contains nothing else. The wildcard cases are proved by ContainmentUpperWildcard, ContainmentLowerWildcard and ContainmentWithoutWildcard |
| Assignability.IsAssignableFrom | dev/core/src/com/google/gwt/core/ext/typeinfo/JClassType.java:418-420 | with fuel left, a type is assignable from itself, and Object is assignable from everything |
| Assignability.IsAssignableTo | dev/core/src/com/google/gwt/core/ext/typeinfo/JClassType.java:418-424 | `t.isAssignableTo(s)` answers the same as `s.isAssignableFrom(t)` |
| AssignabilityProperties.ClassTypesMonotone | dev/core/src/com/google/gwt/core/ext/typeinfo/JClassType.java:77-88 | an answer `true` of areClassTypesAssignable within some nesting depth stays `true` at every greater depth |
| AssignabilityProperties.NoSupersMonotone | dev/core/src/com/google/gwt/core/ext/typeinfo/JClassType.java:98-210 | the same monotonicity for areClassTypesAssignableNoSupers, across all of its rules |
| AssignabilityProperties.ArraysMonotone | dev/core/src/com/google/gwt/core/ext/typeinfo/JClassType.java:46-72 | the same monotonicity for areArraysAssignable |
| AssignabilityProperties.TypeArgumentsMonotone | dev/core/src/com/google/gwt/core/ext/typeinfo/JClassType.java:216-238 | the same monotonicity for areTypeArgumentsAssignable |
| AssignabilityProperties.WildcardsMonotone | dev/core/src/com/google/gwt/core/ext/typeinfo/JClassType.java:244-266 | the same monotonicity for areWildcardsAssignable |
| AssignabilityProperties.ContainMonotone | dev/core/src/com/google/gwt/core/ext/typeinfo/JClassType.java:273-302 | the same monotonicity for doesTypeArgumentContain |
| AssignabilityProperties.AssignableFromAncestor | dev/core/src/com/google/gwt/core/ext/typeinfo/JClassType.java:77-103 | a type is assignable from every type whose flattened hierarchy contains it |
| AssignabilityProperties.AssignableReflexive | dev/core/src/com/google/gwt/core/ext/typeinfo/JClassType.java:418-420 | every class type is assignable from itself |
| AssignabilityProperties.AssignableToObject | dev/core/src/com/google/gwt/core/ext/typeinfo/JClassType.java:105-108 | every class type is assignable to java.lang.Object |
| AssignabilityProperties.AssignableFromSubtype | dev/core/src/com/google/gwt/core/ext/typeinfo/JClassType.java:77-88 | whatever is assignable from a supertype of `rhs` is assignable from `rhs`; a type reached by two paths of a diamond is found through either |
| AssignabilityProperties.RawAssignableBothWays | dev/core/src/com/google/gwt/core/ext/typeinfo/JClassType.java:110-197 | a raw type, or the generic declaration itself, and any parameterization of the same generic base are assignable in both directions |
| AssignabilityProperties.RawNoSupers | dev/core/src/com/google/gwt/core/ext/typeinfo/JClassType.java:185-197 | the same bridge for the rule that ignores supertypes |
| AssignabilityProperties.SameBaseParameterized | dev/core/src/com/google/gwt/core/ext/typeinfo/JClassType.java:185-238 | compared directly (areClassTypesAssignableNoSupers, without the source's supertypes), two distinct parameterizations of one base match if and only if, for each declared type parameter, the target's argument contains the source's |
| AssignabilityProperties.DistinctArgumentsNotAssignable | dev/core/src/com/google/gwt/core/ext/typeinfo/JClassType.java:216-302 | invariance, compared directly (areClassTypesAssignableNoSupers, without the source's supertypes): a non-wildcard argument that differs from the source's argument at a declared position makes the parameterizations not match, whatever the two arguments' own relation |
| AssignabilityProperties.ParameterizedNotFromOtherBase | dev/core/src/com/google/gwt/core/ext/typeinfo/JClassType.java:185-209 | compared directly, a parameterization never matches a type that is not a type parameter and has another generic base or none |
| AssignabilityProperties.ParameterizationsInvariant | dev/core/src/com/google/gwt/core/ext/typeinfo/JClassType.java:77-88 | invariance for the whole procedure (isAssignableFrom): a non-wildcard target argument that differs from the source's argument at a declared position makes the target not assignable from the source at any depth, provided no proper supertype of the source is a type parameter or shares its generic base |
| AssignabilityProperties.ArgumentsWithinWildcards | dev/core/src/com/google/gwt/core/ext/typeinfo/JClassType.java:273-294 | covariance through `? extends B` and contravariance through `? super B`: arguments that are equal or lie within the target's wildcard bounds make the parameterizations assignable |
| AssignabilityProperties.ContainmentWithoutWildcard | dev/core/src/com/google/gwt/core/ext/typeinfo/JClassType.java:273-302 | a non-wildcard argument contains another argument if and only if the two are the same type |
| AssignabilityProperties.ContainmentUpperWildcard | dev/core/src/com/google/gwt/core/ext/typeinfo/JClassType.java:286-290 | `? extends B` contains a non-wildcard argument exactly when B is assignable from it |
| AssignabilityProperties.ContainmentLowerWildcard | dev/core/src/com/google/gwt/core/ext/typeinfo/JClassType.java:291-293 | `? super B` contains a non-wildcard argument exactly when the argument is assignable from B |
| AssignabilityProperties.MixedWildcardsNeverAssignable | dev/core/src/com/google/gwt/core/ext/typeinfo/JClassType.java:244-266 | distinct wildcards with bounds in opposite directions are neither assignable by areWildcardsAssignable nor contained as arguments, and do not match when compared directly (areClassTypesAssignableNoSupers, without the source's supertypes) |
| AssignabilityProperties.SameDirectionWildcards | dev/core/src/com/google/gwt/core/ext/typeinfo/JClassType.java:244-266 | for wildcards bounded in the same direction, containment as arguments equals the answer compared directly (areClassTypesAssignableNoSupers, without the source's supertypes): upper bounds compare covariantly, lower bounds contravariantly |
| AssignabilityProperties.PrimitiveArraysNotAssignable | dev/core/src/com/google/gwt/core/ext/typeinfo/JClassType.java:55-63 | compared directly (areClassTypesAssignableNoSupers, without the source's supertypes), distinct array types either of whose components is primitive never match |
| AssignabilityProperties.ArrayCovariance | dev/core/src/com/google/gwt/core/ext/typeinfo/JClassType.java:46-72 | compared directly (areClassTypesAssignableNoSupers, without the source's supertypes), arrays of reference types match exactly when their component types are assignable |
| AssignabilityProperties.ArrayNotFromNonArray | dev/core/src/com/google/gwt/core/ext/typeinfo/JClassType.java:171-179 | compared directly (areClassTypesAssignableNoSupers, without the source's supertypes), an array type never matches a type that is neither an array nor a type parameter |
| AssignabilityProperties.NonArrayNotFromArray | dev/core/src/com/google/gwt/core/ext/typeinfo/JClassType.java:180-183 | compared directly (areClassTypesAssignableNoSupers, without the source's supertypes), a non-array target other than Object, a type parameter or a wildcard never matches an array |
| AssignabilityProperties.TypeParamTarget | dev/core/src/com/google/gwt/core/ext/typeinfo/JClassType.java:126-137 | compared directly (areClassTypesAssignableNoSupers, without the source's supertypes), a type parameter target matches a source exactly when each of its bounds is assignable from the raw-reduced source |
| AssignabilityProperties.TypeParamSource | dev/core/src/com/google/gwt/core/ext/typeinfo/JClassType.java:138-148 | compared directly (areClassTypesAssignableNoSupers, without the source's supertypes), a type parameter source matches a target other than itself, Object or a type parameter exactly when the raw-reduced target is assignable from at least one of its bounds |
| AssignabilityProperties.UnboundedTypeParamTarget | dev/core/src/com/google/gwt/core/ext/typeinfo/JClassType.java:126-137 | a type parameter with no bounds, as the target, accepts every other class type |
| AssignabilityProperties.UnboundedTypeParamSource | dev/core/src/com/google/gwt/core/ext/typeinfo/JClassType.java:138-147 | compared directly (areClassTypesAssignableNoSupers, without the source's supertypes), a type parameter with no bounds, as the source, matches no target other than itself, Object or a type parameter; the whole procedure can still accept it through its supertypes |
| AssignabilityProperties.TypeParamAssignableToBound | dev/core/src/com/google/gwt/core/ext/typeinfo/JClassType.java:138-148 | a type parameter is assignable to each of its bounds that is not itself a type parameter |
| AssignabilityProperties.WildcardTarget | dev/core/src/com/google/gwt/core/ext/typeinfo/JClassType.java:159-169 | compared directly (areClassTypesAssignableNoSupers, without the source's supertypes), against a source that is neither a wildcard nor a type parameter, a top-level `? extends T` target needs T assignable from the raw-reduced source, and a top-level `? super T` target matches it |
| AssignabilityProperties.LowerWildcardFromObjectSubtype | dev/core/src/com/google/gwt/core/ext/typeinfo/JClassType.java:77-88 | for the whole procedure (isAssignableFrom), a top-level `? super T` target is assignable from every source whose flattened hierarchy contains Object, even a type parameter without bounds that the direct comparison rejects |
| Examples.UpperWildcardCovariance | dev/core/src/com/google/gwt/core/ext/typeinfo/JClassType.java:283-290 | `G<? extends Number>` is assignable from `G<Integer>` |
| Examples.UpperWildcardNotInvertible | dev/core/src/com/google/gwt/core/ext/typeinfo/JClassType.java:297-301 | `G<Integer>` is not assignable from `G<? extends Number>` at any depth, derived from ParameterizationsInvariant |
| Examples.LowerWildcardContravariance | dev/core/src/com/google/gwt/core/ext/typeinfo/JClassType.java:291-293 | `G<? super Integer>` is assignable from `G<Number>` |
| Examples.ArgumentsAreInvariant | dev/core/src/com/google/gwt/core/ext/typeinfo/JClassType.java:297-301 | `Number` is assignable from `Integer`, yet `G<Number>` is not assignable from `G<Integer>` at any depth, derived from ParameterizationsInvariant |
| Examples.ReferenceArraysCovariant | dev/core/src/com/google/gwt/core/ext/typeinfo/JClassType.java:46-72 | `Object[]` is assignable from `Integer[]` |
| Examples.PrimitiveArrayNotObjectArray | dev/core/src/com/google/gwt/core/ext/typeinfo/JClassType.java:55-63 | `Object[]` is not assignable from `int[]` at any depth |
| Examples.RawBridge | dev/core/src/com/google/gwt/core/ext/typeinfo/JClassType.java:110-197 | raw `G` and `G<Integer>`, and generic `G` and `G<Number>`, are assignable both ways |
| Examples.SelfReferentialBound | dev/core/src/com/google/gwt/core/ext/typeinfo/JClassType.java:304-322 | for `F extends Comparable<F>`, the F inside the bound Comparable<F> is a type argument, not a supertype edge, so the walk stops at Comparable<F>: the hierarchy of F is `{F, Comparable<F>}`, and F is assignable from itself and to its bound |
| Examples.DiamondHierarchy | dev/core/src/com/google/gwt/core/ext/typeinfo/JClassType.java:31-40 | in the diamond C <: I1, I2 <: J, the hierarchy of C is exactly `{C, Object, I1, I2, J}`, holding J once |
| Examples.DiamondSide | dev/core/src/com/google/gwt/core/ext/typeinfo/JClassType.java:31-40 | the hierarchy of each side interface of the diamond is itself and J |
| Examples.DiamondAssignable | dev/core/src/com/google/gwt/core/ext/typeinfo/JClassType.java:77-88 | J is assignable from C through the side I1 |
| Examples.DiamondSidesAssignable | dev/core/src/com/google/gwt/core/ext/typeinfo/JClassType.java:77-88 | J is assignable from I1 and from I2 |
| Examples.FlattenC | dev/core/src/com/google/gwt/core/ext/typeinfo/JClassType.java:304-322 | the flattener run on C, which reaches J through I1 and again through I2, returns `{C, Object, I1, I2, J}` |
| Examples.FlattenF | dev/core/src/com/google/gwt/core/ext/typeinfo/JClassType.java:35-40 | the flattener run on F returns `{F, Comparable<F>}` |

## Left out

- AssignabilityProperties.ParameterizationsInvariant: proved only for a source
  with no proper supertype that is a type parameter or shares its generic base.
  The well-formed graphs of this model do not exclude a parameterization
  inheriting from another parameterization of its own base (`G<B>` extending
  `G<A>`). On such a graph the code answers `true` through the hierarchy,
  although the arguments differ.
- Every other member of JClassType is left out: the abstract accessors, the
  reflection-style queries, method and field lookup and name building. The
  model takes a type's kind, superclass, interfaces, bounds, arguments and
  component type from the graph, which stands for those accessors.
- Building the type graph is left out; a well-formed graph is a parameter.
  The `Date` custom field serializer is not part of this model.
- Assignability.AreClassTypesAssignable: the Java procedure has no bound on
  its recursion, and on some graphs it may not terminate. The model adds a
  fuel bound: fuel 0 answers `false`, and a `true` answer at some fuel is
  `true` at all larger fuel. A `false` answer at one fuel is therefore not a
  claim about the Java answer. The examples that state `false` prove it for
  every fuel.
- Assignability.AreClassTypesAssignable: the Java loop stops at the first
  match in `HashSet` iteration order. The model says "some member of the
  hierarchy matches". The two agree whenever every call the Java loop makes
  terminates. An order in which an earlier member diverges is not modelled.
- Assignability.AreClassTypesAssignableNoSupers: the same applies to the
  loops over type-parameter bounds, which the model states as "every bound"
  and "some bound".
- The decision procedure is ghost, because the hierarchy it quantifies over
  is the specification set `Ancestors`. The executable flattener is proved
  to compute exactly that set.
- A wildcard records only its first bound, the only one the procedure reads.
  Its other bounds are not modelled.
- Java `assert` statements that guard internal helpers become preconditions:
  - distinct arguments;
  - the same generic base;
  - both arrays, both wildcards or both parameterized.
  Each call site in the model meets them.
- The order of the visited `HashSet` and object identity beyond index
  equality are not modelled.
