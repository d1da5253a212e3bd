/** Laws of the element identity contract: id classification, id
    assignment, and the equality, hashing and ordering laws that Java's
    `Object.equals`, `Object.hashCode` and `Comparable.compareTo` contracts
    ask of `AbstractElement`, with witnesses where a law does not hold. */
module ElementLaws {
  import opened JavaPrimitives
  import opened AbstractElement

  /** Sign of a comparison result, as the `Comparable` contract uses it. */
  function Sign(c: int): int
  {
    if c < 0 then -1 else if c > 0 then 1 else 0
  }

  // ---------------------------------------------------------------------
  // Ids
  // ---------------------------------------------------------------------

  /** `isTemporaryId` picks out exactly the temporary class; virtual (0) and
      persisted (positive) ids are both non-temporary. */
  lemma TemporaryIffTemporaryClass(id: Long)
    ensures IsTemporaryId(id) <==> Classify(id) == Temporary
    ensures Classify(id) == Virtual ==> !IsTemporaryId(id)
    ensures Classify(id) == Persisted ==> !IsTemporaryId(id)
  {
  }

  /** `hasId()` holds for virtual and persisted elements alike, so an
      element with id 0 reports that it has an id. */
  lemma HasIdIffNotTemporary(e: Element)
    ensures HasId(e) <==> Classify(LongId(e)) in {Virtual, Persisted}
    ensures LongId(e) == 0 ==> HasId(e)
  {
  }

  /** Re-assigning an id is not rejected: the last assigned id wins and the
      first assignment leaves no trace. */
  lemma SetIdLastWins(e: Element, a: Long, b: Long)
    requires a > 0 && b > 0
    ensures SetId(SetId(e, a), b) == SetId(e, b)
    ensures LongId(SetId(SetId(e, a), b)) == b
  {
  }

  /** An element created with temporary id -7 has no id; once assigned 1001
      it is persisted, and a second assignment of 1002 replaces 1001. */
  lemma AssignTwiceScenario(rule: CompareIdRule, kinds: set<Kind>)
    ensures var e := Element(-7, rule, kinds);
            && IsTemporaryId(LongId(e)) && !HasId(e)
            && LongId(SetId(e, 1001)) == 1001
            && LongId(SetId(SetId(e, 1001), 1002)) == 1002
  {
  }

  // ---------------------------------------------------------------------
  // Equality
  // ---------------------------------------------------------------------

  /** `equals` is reflexive through the identity test, and never true of
      null. */
  lemma EqualsReflexive(e: Element)
    ensures Equals(e, Itself)
    ensures !Equals(e, Null)
  {
  }

  /** A distinct object with the same fields is equal only when the class
      implements at least one element kind: reflexivity of the kind rule
      alone needs a kind. */
  lemma EqualsCopyIffKinded(e: Element)
    ensures Equals(e, Titan(Abstract(e))) <==> e.kinds != {}
  {
  }

  /** Between two `AbstractElement`s, `equals` is symmetric. */
  lemma EqualsSymmetric(a: Element, b: Element)
    ensures Equals(a, Titan(Abstract(b))) <==> Equals(b, Titan(Abstract(a)))
  {
  }

  /** Between `AbstractElement`s whose classes implement at most one element
      kind each, `equals` is transitive. */
  lemma EqualsTransitiveSingleKind(a: Element, b: Element, c: Element)
    requires |b.kinds| <= 1
    requires Equals(a, Titan(Abstract(b))) && Equals(b, Titan(Abstract(c)))
    ensures Equals(a, Titan(Abstract(c)))
  {
    var k :| k in a.kinds * b.kinds;
    var k' :| k' in b.kinds * c.kinds;
    // b has one kind only, so the kind it shares with a is the one it
    // shares with c.
    assert |b.kinds - {k}| == |b.kinds| - 1 == 0;
    assert k' !in b.kinds - {k};
    assert k in a.kinds * c.kinds;
  }

  /** With a class that is both a Vertex and an Edge, `equals` is not
      transitive: such an element equals a vertex and an edge with the same
      key that are not equal to each other. */
  lemma EqualsNotTransitiveForMultiKind() returns (a: Element, b: Element, c: Element)
    ensures Equals(a, Titan(Abstract(b))) && Equals(b, Titan(Abstract(c)))
    ensures !Equals(a, Titan(Abstract(c)))
  {
    a := Element(5, FollowsId, {Vertex});
    b := Element(5, FollowsId, {Vertex, Edge});
    c := Element(5, FollowsId, {Edge});
    assert Vertex in a.kinds * b.kinds;
    assert Edge in b.kinds * c.kinds;
    assert a.kinds * c.kinds == {};
  }

  /** A vertex and an edge with id 55 that came from different code paths:
      the two vertices are equal and hash alike, the edge equals neither. */
  lemma SameIdDifferentKindScenario()
    ensures var a := Element(55, FollowsId, {Vertex});
            var b := Element(55, FollowsId, {Vertex});
            var c := Element(55, FollowsId, {Edge});
            && Equals(a, Titan(Abstract(b))) && HashCode(a) == HashCode(b)
            && !Equals(a, Titan(Abstract(c))) && !Equals(c, Titan(Abstract(a)))
  {
    var a := Element(55, FollowsId, {Vertex});
    var c := Element(55, FollowsId, {Edge});
    assert Vertex in a.kinds * a.kinds;
    assert a.kinds * c.kinds == {};
  }

  /** Between two elements that keep the default `getCompareId()`, equality
      is decided by `longId()` and a shared kind; a temporary and a persisted
      element are never equal. */
  lemma DefaultElementsEqualIffSameId(a: Element, b: Element)
    requires a.compareRule.FollowsId? && b.compareRule.FollowsId?
    ensures Equals(a, Titan(Abstract(b))) <==> LongId(a) == LongId(b) && a.kinds * b.kinds != {}
    ensures IsTemporaryId(LongId(a)) && !IsTemporaryId(LongId(b)) ==> !Equals(a, Titan(Abstract(b)))
  {
  }

  /** A proxy whose compare key is overridden with its target's key is
      interchangeable with the target: equal both ways, same hash, and
      ordered as equal, whatever its own id. */
  lemma ProxyEqualsTarget(proxy: Element, target: Element)
    requires proxy.compareRule == Overridden(CompareId(target))
    requires proxy.kinds * target.kinds != {}
    ensures Equals(proxy, Titan(Abstract(target)))
    ensures Equals(target, Titan(Abstract(proxy)))
    ensures HashCode(proxy) == HashCode(target)
    ensures Compare(Abstract(proxy), Abstract(target)) == 0
  {
    assert target.kinds * proxy.kinds == proxy.kinds * target.kinds;
  }

  // ---------------------------------------------------------------------
  // Hashing
  // ---------------------------------------------------------------------

  /** The hash code is a function of the compare key alone. */
  lemma HashDependsOnlyOnCompareId(a: Element, b: Element)
    requires CompareId(a) == CompareId(b)
    ensures HashCode(a) == HashCode(b)
  {
  }

  /** Equal `AbstractElement`s have equal hash codes. */
  lemma EqualsImpliesSameHash(a: Element, b: Element)
    requires Equals(a, Titan(Abstract(b)))
    ensures HashCode(a) == HashCode(b)
  {
  }

  // ---------------------------------------------------------------------
  // Ordering
  // ---------------------------------------------------------------------

  /** `compare` is zero on equal keys, in particular on an element and itself. */
  lemma CompareReflexive(a: TitanElement)
    ensures Compare(a, a) == 0
  {
  }

  /** Swapping the arguments of `compare` flips the sign. */
  lemma CompareAntisymmetric(a: TitanElement, b: TitanElement)
    ensures Sign(Compare(a, b)) == -Sign(Compare(b, a))
  {
  }

  /** `compare` is transitive, strictly and non-strictly. */
  lemma CompareTransitive(a: TitanElement, b: TitanElement, c: TitanElement)
    ensures Compare(a, b) > 0 && Compare(b, c) > 0 ==> Compare(a, c) > 0
    ensures Compare(a, b) <= 0 && Compare(b, c) <= 0 ==> Compare(a, c) <= 0
  {
  }

  /** Elements that compare as zero compare alike against every third. */
  lemma CompareZeroSubstitutes(a: TitanElement, b: TitanElement, c: TitanElement)
    requires Compare(a, b) == 0
    ensures Sign(Compare(a, c)) == Sign(Compare(b, c))
  {
  }

  /** Any two elements are comparable one way or the other. */
  lemma CompareTotal(a: TitanElement, b: TitanElement)
    ensures Compare(a, b) <= 0 || Compare(b, a) <= 0
  {
  }

  /** `compareTo` agrees with the static `compare`. */
  lemma CompareToIsCompare(a: Element, b: TitanElement)
    ensures Sign(CompareTo(a, b)) == Sign(Compare(Abstract(a), b))
    ensures Sign(CompareTo(a, b)) == -Sign(Compare(b, Abstract(a)))
  {
  }

  /** Equal `AbstractElement`s are ordered as equal. */
  lemma EqualsImpliesCompareZero(a: Element, b: Element)
    requires Equals(a, Titan(Abstract(b)))
    ensures CompareTo(a, Abstract(b)) == 0
  {
  }

  /** The converse fails: a vertex and an edge with the same key compare as
      zero but are not equal, so the ordering is not consistent with
      `equals` in the sense of `Comparable`. */
  lemma CompareZeroWithoutEquals() returns (a: Element, b: Element)
    ensures CompareTo(a, Abstract(b)) == 0
    ensures !Equals(a, Titan(Abstract(b)))
  {
    a := Element(9, FollowsId, {Vertex});
    b := Element(9, FollowsId, {Edge});
    assert a.kinds * b.kinds == {};
  }
}
