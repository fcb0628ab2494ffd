// Occurrence bounds of particles (elements, wildcards and model groups) and
// the occurrence predicates every particle answers.
module Particles {
  import opened Wrappers

  /** minOccurs and maxOccurs of a particle; a maxOccurs of None stands for 'unbounded'. */
  datatype Occurs = Occurs(min: nat, max: Option<nat>)

  /** k occurrences are not enough. */
  predicate IsMissing(o: Occurs, k: nat) { k < o.min }

  /** k occurrences reach the maximum: one more would be too many. */
  predicate IsOver(o: Occurs, k: nat) { o.max.Some? && o.max.value <= k }

  predicate IsEmptiable(o: Occurs) { o.min == 0 }

  predicate IsEmpty(o: Occurs) { o.max == Some(0) }

  predicate IsUnivocal(o: Occurs) { o.max == Some(o.min) }

  predicate IsAmbiguous(o: Occurs) { !IsUnivocal(o) }

  /** The occurrence range of o lies inside the one of other. */
  predicate HasOccursRestriction(o: Occurs, other: Occurs)
  {
    if o.min < other.min then false
    else if o.max == Some(0) then true
    else if other.max.None? then true
    else if o.max.None? then false
    else o.max.value <= other.max.value
  }

  /** k occurrences satisfy the bounds of o. */
  predicate Admits(o: Occurs, k: nat) { o.min <= k && (o.max.None? || k <= o.max.value) }

  /**
   * The occurrence restriction check is the inclusion of the admitted counts, for every
   * particle that admits at least one count.
   */
  lemma {:induction false} OccursRestrictionMeaning(o: Occurs, other: Occurs)
    requires o.max.None? || o.min <= o.max.value
    ensures HasOccursRestriction(o, other) <==> forall k: nat :: Admits(o, k) ==> Admits(other, k)
  {
    if HasOccursRestriction(o, other) {
      forall k: nat | Admits(o, k) ensures Admits(other, k) {
        if o.max == Some(0) { assert k == 0; }
      }
    } else {
      if o.min < other.min {
        assert Admits(o, o.min) && !Admits(other, o.min);
      } else {
        var m := other.max.value;
        var k: nat := if o.max.None? then (if o.min > m then o.min else m + 1) else o.max.value;
        assert Admits(o, k) && !Admits(other, k);
      }
    }
  }
}
