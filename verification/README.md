# Titan element identity contract, in Dafny

This project models the identity contract of Titan's graph elements, the
base class `AbstractElement` that every vertex, edge and vertex property
extends. It covers:

- the classification of `long` ids: negative ids are temporary, 0 is a
  virtual element, positive ids are persisted;
- `isTemporaryId`, `longId`, `hasId` and `setId`;
- the compare key `getCompareId()`, which follows `longId()` unless a proxy
  class overrides it with the key of the element it stands for;
- `equals`, `hashCode`, `compare` and `compareTo`, all built on that key.

Files:

- `java_primitives.dfy` (module `JavaPrimitives`): Java `long` and `int`
  ranges, and Guava's `Longs.compare` and `Longs.hashCode`. The hash is
  written out as Java's `Long.hashCode`, `(int)(v ^ (v >>> 32))`: the low
  word xor the high word of the two's-complement bits, narrowed to a signed
  32-bit `int`.
- `abstract_element.dfy` (module `AbstractElement`): the element record and
  its operations. An element is an immutable record of its id, the
  compare-key rule of its class, and the set of element interfaces
  (`Vertex`, `Edge`, `VertexProperty`) its class implements. It is a set
  because Java's `instanceof` tests are not exclusive. The argument of
  `equals` is a tagged variant with one case per branch of the method:
  null, the object itself, another `TitanElement`, a plain TinkerPop
  element, or a non-element.
- `element_laws.dfy` (module `ElementLaws`): the laws of the contract. These
  are reflexivity, symmetry and conditional transitivity of `equals`,
  hash/equals consistency, the `Comparable` laws of `compare`, and the
  id-assignment laws. Witnesses show where a law does not hold.

Two behaviours of the code are easy to overlook:

- `setId` does not reject re-assigning a persisted id. It only asserts
  that the new id is positive and overwrites any previous id (`ElementLaws.SetIdLastWins`,
  `ElementLaws.AssignTwiceScenario`).
- Equality is not only "same compare key and same kind". The code
  first returns true when the argument is the very same object, whatever
  its kinds. A distinct object with the same fields is equal only if its
  class implements some element kind (`ElementLaws.EqualsCopyIffKinded`).

## Model

| member | source | states |
|---|---|---|
| `ElementLaws.TemporaryIffTemporaryClass` | titan-core/src/main/java/com/thinkaurelius/titan/graphdb/internal/AbstractElement.java:16-33 | `isTemporaryId(x)` holds exactly for the temporary class (`x < 0`); virtual (0) and persisted (positive) ids are not temporary |
| `ElementLaws.HasIdIffNotTemporary` | titan-core/src/main/java/com/thinkaurelius/titan/graphdb/internal/AbstractElement.java:100-107 | `hasId()`, which reads `longId()`, holds exactly for virtual and persisted ids, so an element with id 0 has an id |
| `ElementLaws.DefaultElementsEqualIffSameId` | titan-core/src/main/java/com/thinkaurelius/titan/graphdb/internal/AbstractElement.java:96-98 | when both elements keep the default compare key, `equals` holds iff their `longId()`s are equal and they share a kind; a temporary element never equals a non-temporary one |
| `AbstractElement.SetId` | titan-core/src/main/java/com/thinkaurelius/titan/graphdb/internal/AbstractElement.java:109-113 | needs a positive id; afterwards `longId()` is that id and the element has a persisted id. The kinds and compare-key rule are unchanged. A default compare key follows the new id; an overridden one, modelled as a fixed key, keeps its value |
| `ElementLaws.SetIdLastWins` | titan-core/src/main/java/com/thinkaurelius/titan/graphdb/internal/AbstractElement.java:110-113 | re-assignment is not rejected: setting `a` then `b` is the same as setting `b` alone |
| `ElementLaws.AssignTwiceScenario` | titan-core/src/main/java/com/thinkaurelius/titan/graphdb/internal/AbstractElement.java:105-113 | an element with id -7 is temporary and has no id; after `setId(1001)` its id is 1001; a second `setId(1002)` replaces it |
| `AbstractElement.SharesKindIffOverlap` | titan-core/src/main/java/com/thinkaurelius/titan/graphdb/internal/AbstractElement.java:56-65 | the three paired `instanceof` tests succeed exactly when the two sides' kind sets intersect |
| `AbstractElement.Equals` | titan-core/src/main/java/com/thinkaurelius/titan/graphdb/internal/AbstractElement.java:41-66 | null and non-elements are unequal and the object itself is equal. Any other element is equal iff its key matches the compare key and the kind sets intersect. The other side's key depends on its type: `getCompareId()` for an `AbstractElement`, `longId()` for another `TitanElement`, `ElementHelper.getCompareId` for a plain element |
| `ElementLaws.EqualsReflexive` | titan-core/src/main/java/com/thinkaurelius/titan/graphdb/internal/AbstractElement.java:42-46 | `equals(null)` is false and `equals(this)` is true |
| `ElementLaws.EqualsCopyIffKinded` | titan-core/src/main/java/com/thinkaurelius/titan/graphdb/internal/AbstractElement.java:48-65 | a distinct object with the same fields is equal exactly when the class implements at least one element kind |
| `ElementLaws.EqualsSymmetric` | titan-core/src/main/java/com/thinkaurelius/titan/graphdb/internal/AbstractElement.java:48-65 | between two `AbstractElement`s, `a.equals(b)` iff `b.equals(a)` |
| `ElementLaws.EqualsTransitiveSingleKind` | titan-core/src/main/java/com/thinkaurelius/titan/graphdb/internal/AbstractElement.java:48-65 | if the middle element implements at most one kind, `a = b` and `b = c` give `a = c` |
| `ElementLaws.EqualsNotTransitiveForMultiKind` | titan-core/src/main/java/com/thinkaurelius/titan/graphdb/internal/AbstractElement.java:56-65 | produces three elements where transitivity fails: a class that is both Vertex and Edge equals a vertex and an edge, and those two are unequal |
| `ElementLaws.SameIdDifferentKindScenario` | titan-core/src/main/java/com/thinkaurelius/titan/graphdb/internal/AbstractElement.java:36-65 | two separate vertex objects with id 55 are equal and hash alike; an edge with id 55 is unequal to them in both directions |
| `ElementLaws.ProxyEqualsTarget` | titan-core/src/main/java/com/thinkaurelius/titan/graphdb/internal/AbstractElement.java:90-98 | take a proxy whose compare key is overridden with its target's key, sharing a kind with it. It equals the target both ways, hashes alike and compares as zero, whatever its own id |
| `AbstractElement.HashCode` | titan-core/src/main/java/com/thinkaurelius/titan/graphdb/internal/AbstractElement.java:35-38 | the hash is Guava's hash of the compare key; for a key in `[0, 2^31)` it is the key itself |
| `JavaPrimitives.LongsHashCode` | titan-core/src/main/java/com/thinkaurelius/titan/graphdb/internal/AbstractElement.java:37 | the `long` hash lies in the `int` range, maps every `v` in `[0, 2^31)` to itself, and maps -1 to 0 |
| `ElementLaws.HashDependsOnlyOnCompareId` | titan-core/src/main/java/com/thinkaurelius/titan/graphdb/internal/AbstractElement.java:36-38 | elements with the same compare key have the same hash code |
| `ElementLaws.EqualsImpliesSameHash` | titan-core/src/main/java/com/thinkaurelius/titan/graphdb/internal/AbstractElement.java:36-49 | equal `AbstractElement`s have equal hash codes |
| `JavaPrimitives.LongsCompare` | titan-core/src/main/java/com/thinkaurelius/titan/graphdb/internal/AbstractElement.java:77 | the result is negative, zero or positive as the first `long` is less than, equal to or greater than the second |
| `AbstractElement.Compare` | titan-core/src/main/java/com/thinkaurelius/titan/graphdb/internal/AbstractElement.java:74-78 | `compare(e1, e2)` is negative, zero or positive as e1's key is less than, equal to or greater than e2's. The key is `getCompareId()` for an `AbstractElement` and `longId()` otherwise |
| `AbstractElement.CompareTo` | titan-core/src/main/java/com/thinkaurelius/titan/graphdb/internal/AbstractElement.java:69-72 | `compareTo(other)` orders this element's compare key against the other's key |
| `ElementLaws.CompareToIsCompare` | titan-core/src/main/java/com/thinkaurelius/titan/graphdb/internal/AbstractElement.java:70-72 | `compareTo` has the sign of `compare(this, other)` and the opposite sign of `compare(other, this)` |
| `ElementLaws.CompareReflexive` | titan-core/src/main/java/com/thinkaurelius/titan/graphdb/internal/AbstractElement.java:74-78 | every element compares as zero with itself |
| `ElementLaws.CompareAntisymmetric` | titan-core/src/main/java/com/thinkaurelius/titan/graphdb/internal/AbstractElement.java:74-78 | swapping the arguments flips the sign of `compare` |
| `ElementLaws.CompareTransitive` | titan-core/src/main/java/com/thinkaurelius/titan/graphdb/internal/AbstractElement.java:74-78 | `compare` is transitive for "greater" and for "less or equal" |
| `ElementLaws.CompareZeroSubstitutes` | titan-core/src/main/java/com/thinkaurelius/titan/graphdb/internal/AbstractElement.java:74-78 | elements that compare as zero compare with the same sign against any third element |
| `ElementLaws.CompareTotal` | titan-core/src/main/java/com/thinkaurelius/titan/graphdb/internal/AbstractElement.java:74-78 | any two elements are ordered one way or the other |
| `ElementLaws.EqualsImpliesCompareZero` | titan-core/src/main/java/com/thinkaurelius/titan/graphdb/internal/AbstractElement.java:48-78 | equal `AbstractElement`s compare as zero |
| `ElementLaws.CompareZeroWithoutEquals` | titan-core/src/main/java/com/thinkaurelius/titan/graphdb/internal/AbstractElement.java:56-78 | produces a vertex and an edge with the same key that compare as zero but are unequal, so the order is not consistent with `equals` |

## Left out

- `isInvisible` (AbstractElement.java:115-118) delegates to `IDManager.VertexIDType`. `IDManager` and its bit-packed id layout are not part of this model.
- `isNew`, `isLoaded` and `isRemoved` (AbstractElement.java:120-133) delegate to `ElementLifeCycle` and `it()`. Neither is part of this model, so no lifecycle state machine is modelled.
- `clone` (AbstractElement.java:80-83) always throws `CloneNotSupportedException` and has no logic to model.
- `ElementHelper.getCompareId` is not part of this model. A plain TinkerPop element on the other side of `equals` carries the key that helper returns for it.
- `equals` and `hashCode` of `TitanElement` classes that do not extend `AbstractElement` are not visible. So symmetry and hash consistency are stated between `AbstractElement`s only.
- Object identity is not modelled as heap references. The `this == other` test is the `Itself` case of the `equals` argument.
- The identifier codec (partition, type tag, sequence count, invisibility bit) and its encoding and decoding errors are not in `AbstractElement` and are not modelled. Nor is a fail-fast check on re-assigning a persisted id, because `setId` has none.
- `FulgoraElementTraversal` is a factory that only captures a transaction reference and has no behaviour of its own. `Cardinality` is an enum with no operations. `BerkeleyPerformanceTest` is a test-suite annotation. None of them is modelled.
- AbstractElement.SetId: an overriding `getCompareId()` is modelled as a fixed key that does not depend on any id, neither the element's own nor a target's read at call time. The clause that an overridden key survives `setId` rests on that choice; the Javadoc at AbstractElement.java:90-95 asks only for "an id that can be used for comparison".
- `compare(null, x)`, `compare(x, null)` and `compareTo(null)` throw `NullPointerException` at AbstractElement.java:75-76. `TitanElement` in the model has no null case, so this error path is not modelled.
- Concurrency and transaction commit: the class has none of either.
- `setId`'s `assert id > 0` is a Java assertion, which runs only when assertions are enabled. The model makes it a precondition and leaves out what happens with assertions disabled.
