/** The identity contract of Titan's graph elements (`AbstractElement`):
    classification of ids, id assignment, the compare key, and the equality,
    hashing and ordering built on that key.

    An element is an immutable record. Mutation through `setId` is a
    function from the old record to the new one. */
module AbstractElement {
  import opened JavaPrimitives

  /** The TinkerPop element kinds that `equals` tests with `instanceof`.
      A Java class may implement several of these interfaces, so an element
      carries a set of kinds rather than a single tag. */
  datatype Kind = Vertex | Edge | VertexProperty

  /** How a concrete element class answers `getCompareId()`: by default it
      follows `longId()`; a proxy class overrides it with the key of the
      element it stands for, taken here as a fixed value that does not
      depend on the element's own id. */
  datatype CompareIdRule = FollowsId | Overridden(key: Long)

  /** An `AbstractElement` instance: its `long` id, the compare-key rule of
      its class, and the element interfaces its class implements. */
  datatype Element = Element(id: Long, compareRule: CompareIdRule, kinds: set<Kind>)

  /** The three classes of id values documented on the class: negative ids
      are temporary (assigned a positive id at commit), zero is a virtual
      element that does not physically exist, positive ids are persisted. */
  datatype IdClass = Temporary | Virtual | Persisted

  function Classify(id: Long): IdClass
  {
    if id < 0 then Temporary else if id == 0 then Virtual else Persisted
  }

  /** `AbstractElement.isTemporaryId`. */
  predicate IsTemporaryId(elementId: Long)
  {
    elementId < 0
  }

  /** `longId()`. */
  function LongId(e: Element): Long
  {
    e.id
  }

  /** `hasId()`: the element's id is not temporary. */
  predicate HasId(e: Element)
  {
    !IsTemporaryId(LongId(e))
  }

  /** `getCompareId()`: the key used by `equals`, `hashCode` and `compare`. */
  function CompareId(e: Element): Long
  {
    match e.compareRule
    case FollowsId => LongId(e)
    case Overridden(key) => key
  }

  /** `setId(id)`. The source asserts only that the new id is positive; it
      does not look at the previous id, so an already persisted id is
      overwritten too. */
  function SetId(e: Element, n: Long): (r: Element)
    requires n > 0
    ensures LongId(r) == n
    ensures HasId(r) && Classify(LongId(r)) == Persisted
    ensures r.compareRule == e.compareRule && r.kinds == e.kinds
    ensures e.compareRule.FollowsId? ==> CompareId(r) == n
    ensures e.compareRule.Overridden? ==> CompareId(r) == CompareId(e)
  {
    e.(id := n)
  }

  /** A `TitanElement` as seen by `compare` and by `equals`: either another
      `AbstractElement`, or some other implementation of `TitanElement`,
      of which only `longId()` and its element interfaces are visible. */
  datatype TitanElement =
    | Abstract(e: Element)
    | OtherTitan(id: Long, kinds: set<Kind>)

  /** The argument of `equals(Object other)`, one case per branch of the
      method. `Itself` is the very object `equals` is called on (the
      reference-identity test). A TinkerPop element that is not a
      `TitanElement` carries the key `ElementHelper.getCompareId` returns for
      it; that helper is not part of this model. */
  datatype Other =
    | Null
    | Itself
    | Titan(t: TitanElement)
    | TinkerElement(helperKey: Long, kinds: set<Kind>)
    | NonElement

  /** The key of a `TitanElement` on the other side of `equals` or
      `compare`: `getCompareId()` for an `AbstractElement`, `longId()`
      otherwise. */
  function TitanKey(t: TitanElement): Long
  {
    match t
    case Abstract(e) => CompareId(e)
    case OtherTitan(id, _) => id
  }

  function TitanKinds(t: TitanElement): set<Kind>
  {
    match t
    case Abstract(e) => e.kinds
    case OtherTitan(_, kinds) => kinds
  }

  /** Both sides are a Vertex, or both an Edge, or both a VertexProperty:
      the three `instanceof` tests that end `equals`. */
  predicate SharesKind(mine: set<Kind>, theirs: set<Kind>)
  {
    || (Vertex in mine && Vertex in theirs)
    || (Edge in mine && Edge in theirs)
    || (VertexProperty in mine && VertexProperty in theirs)
  }

  /** The three kind tests succeed exactly when the two kind sets meet. */
  lemma SharesKindIffOverlap(mine: set<Kind>, theirs: set<Kind>)
    ensures SharesKind(mine, theirs) <==> mine * theirs != {}
  {
    if mine * theirs != {} {
      var k :| k in mine * theirs;
      match k
      case Vertex =>
      case Edge =>
      case VertexProperty =>
    } else {
      assert Vertex !in mine * theirs;
      assert Edge !in mine * theirs;
      assert VertexProperty !in mine * theirs;
    }
  }

  /** Whether `other` is a graph element, and if so the key and kinds
      `equals` compares against. */
  predicate IsElementArg(other: Other)
  {
    other.Titan? || other.TinkerElement?
  }

  function ArgKey(other: Other): Long
    requires IsElementArg(other)
  {
    match other
    case Titan(t) => TitanKey(t)
    case TinkerElement(key, _) => key
  }

  function ArgKinds(other: Other): set<Kind>
    requires IsElementArg(other)
  {
    match other
    case Titan(t) => TitanKinds(t)
    case TinkerElement(_, kinds) => kinds
  }

  /** `equals(other)`. Null and non-elements are unequal, the object itself
      is equal, and any other element is equal exactly when the compare keys
      agree and the two sides have an element kind in common. */
  function Equals(self: Element, other: Other): (r: bool)
    ensures other.Null? || other.NonElement? ==> !r
    ensures other.Itself? ==> r
    ensures IsElementArg(other) ==>
              (r <==> CompareId(self) == ArgKey(other) && self.kinds * ArgKinds(other) != {})
  {
    match other
    case Null => false
    case Itself => true
    case NonElement => false
    case Titan(t) =>
      SharesKindIffOverlap(self.kinds, TitanKinds(t));
      CompareId(self) == TitanKey(t) && SharesKind(self.kinds, TitanKinds(t))
    case TinkerElement(key, kinds) =>
      SharesKindIffOverlap(self.kinds, kinds);
      CompareId(self) == key && SharesKind(self.kinds, kinds)
  }

  /** `hashCode()`: Guava's hash of the compare key. */
  function HashCode(e: Element): (h: Int32)
    ensures 0 <= CompareId(e) < 0x8000_0000 ==> h == CompareId(e)
  {
    LongsHashCode(CompareId(e))
  }

  /** Static `compare(e1, e2)`: the sign of the result orders the two keys. */
  function Compare(e1: TitanElement, e2: TitanElement): (c: int)
    ensures c < 0 <==> TitanKey(e1) < TitanKey(e2)
    ensures c == 0 <==> TitanKey(e1) == TitanKey(e2)
    ensures c > 0 <==> TitanKey(e1) > TitanKey(e2)
  {
    LongsCompare(TitanKey(e1), TitanKey(e2))
  }

  /** `compareTo(other)`: this element's compare key against the other's key. */
  function CompareTo(self: Element, other: TitanElement): (c: int)
    ensures c < 0 <==> CompareId(self) < TitanKey(other)
    ensures c == 0 <==> CompareId(self) == TitanKey(other)
    ensures c > 0 <==> CompareId(self) > TitanKey(other)
  {
    Compare(Abstract(self), other)
  }
}
