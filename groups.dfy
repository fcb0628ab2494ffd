// Model groups as schema components: the restriction checks of derivation by restriction,
// the determinism check with its depth limit, and the drivers that feed the children of an
// element (decoding) or the items of a content (encoding) through the ModelVisitor.
module Groups {
  import opened Wrappers
  import opened Strs
  import opened Particles
  import opened Wildcards
  import opened Elements
  import opened Models
  import opened Content
  import Validation

  // ---- model compatibility and emptiness ----

  /**
   * admits_restriction: the model a group of `model` with `size` particles (those of the
   * referenced group for a reference) may be restricted to. The same model is always
   * admitted, an 'all' group only goes to a sequence, and a group of at most one particle
   * that is not 'all' goes to anything.
   */
  function AdmitsRestriction(model: ModelKind, size: nat, other: ModelKind): (r: bool)
    ensures model == other ==> r
    ensures model == All ==> (r <==> other != Choice)
    ensures model != All && size <= 1 ==> r
    ensures model != All && size > 1 ==> (r <==> other != All)
  {
    if model == other then true
    else if model == All then other == Sequence
    else if model == Choice then other == Sequence || size <= 1
    else other == Choice || size <= 1
  }

  /** is_empty: a group that is not mixed and has no particles or a maximum of zero. */
  predicate IsEmptyGroup(g: Particle)
    requires g.Group?
  {
    !g.mixed && (g.items == [] || g.goccurs.max == Some(0))
  }

  /**
   * An empty group yields nothing to the visitor, whatever has been counted; for a group
   * that is not mixed and not 'all', yielding nothing is what being empty means.
   */
  lemma EmptyGroupYieldsNothing(g: Particle, occ: Counter)
    requires g.Group?
    ensures IsEmptyGroup(g) ==> Remaining(IterGroup(g), occ) == []
    ensures !g.mixed && g.model != All ==> (IsEmptyGroup(g) <==> Remaining(IterGroup(g), occ) == [])
  {
    IterGroupYields(g, occ);
    if g.items == [] {
      assert LeavesOf(g.items) == [];
    }
  }

  // ---- restriction of an element by a group ----

  /**
   * What is_element_restriction needs of one particle of the group: whether it is a group,
   * its occurrences, whether it restricts the base particle (with occurrences not checked)
   * and whether it is an element of the substitution group headed by the base.
   */
  datatype RItem = RItem(isGroup: bool, occurs: Occurs, restricts: bool, substitutes: bool)

  /**
   * The base particle of an element restriction: an element (possibly a reference, possibly
   * the head of a substitution group) or a wildcard.
   */
  datatype Base = Base(isElement: bool, isRef: bool, headsGroup: bool, occurs: Occurs)

  /** Sum of occurrence bounds, an unbounded maximum absorbing everything. */
  function AddMax(a: Option<nat>, b: Option<nat>): (r: Option<nat>)
    ensures r.Some? <==> a.Some? && b.Some?
  {
    if a.None? || b.None? then None else Some(a.value + b.value)
  }

  /** The sum of the minimum occurrences of the items from i on. */
  function SumMin(items: seq<RItem>, i: nat): nat
    requires i <= |items|
    decreases |items| - i
  {
    if i == |items| then 0 else items[i].occurs.min + SumMin(items, i + 1)
  }

  /** The sum of the maximum occurrences of the items from i on, None when one is unbounded. */
  function SumMax(items: seq<RItem>, i: nat): Option<nat>
    requires i <= |items|
    decreases |items| - i
  {
    if i == |items| then Some(0) else AddMax(items[i].occurs.max, SumMax(items, i + 1))
  }

  /** Every item is an element or wildcard that is optional or restricts the base. */
  predicate ItemsAdmitted(items: seq<RItem>)
  {
    forall k :: 0 <= k < |items| ==> !items[k].isGroup && (items[k].occurs.min == 0 || items[k].restricts)
  }

  /** The final comparison of is_element_restriction between the sums and the base. */
  predicate SumsWithin(min: nat, max: Option<nat>, other: Occurs)
  {
    min >= other.min && (if max.None? then other.max.None? else other.max.None? || max.value <= other.max.value)
  }

  /**
   * is_element_restriction: in XSD 1.0 a local element that heads no substitution group
   * cannot be restricted by a group; the occurrences of the group come first; a choice
   * restricts when its elements all substitute the base or when one of them restricts it;
   * otherwise (the items of iter_model) every item must be optional or restrict the base, and
   * the summed occurrences must be within those of the base.
   */
  function ElementRestriction(xsd10: bool, model: ModelKind, selfOccurs: Occurs, members: seq<RItem>,
                              items: seq<RItem>, base: Base): bool
  {
    if xsd10 && base.isElement && !base.isRef && !base.headsGroup then false
    else if !HasOccursRestriction(selfOccurs, base.occurs) then false
    else if model == Choice then
      (base.headsGroup && forall k :: 0 <= k < |members| ==> members[k].substitutes)
      || exists k :: 0 <= k < |members| && members[k].restricts
    else ItemsAdmitted(items) && SumsWithin(SumMin(items, 0), SumMax(items, 0), base.occurs)
  }

  /**
   * The loop of is_element_restriction: `members` are the particles of the group, `items`
   * those of iter_model.
   */
  method IsElementRestriction(xsd10: bool, model: ModelKind, selfOccurs: Occurs, members: seq<RItem>,
                              items: seq<RItem>, base: Base) returns (r: bool)
    ensures r == ElementRestriction(xsd10, model, selfOccurs, members, items, base)
  {
    if xsd10 && base.isElement && !base.isRef && !base.headsGroup {
      return false;
    }
    if !HasOccursRestriction(selfOccurs, base.occurs) {
      return false;
    }
    if model == Choice {
      if base.headsGroup && forall k :: 0 <= k < |members| ==> members[k].substitutes {
        return true;
      }
      return exists k :: 0 <= k < |members| && members[k].restricts;
    }
    var min: nat := 0;
    var max: Option<nat> := Some(0);
    var i := 0;
    while i < |items|
      invariant 0 <= i <= |items|
      invariant ItemsAdmitted(items[..i])
      invariant min + SumMin(items, i) == SumMin(items, 0)
      invariant AddMax(max, SumMax(items, i)) == SumMax(items, 0)
      decreases |items| - i
    {
      var item := items[i];
      if item.isGroup {
        assert !ItemsAdmitted(items) by { assert items[i] == item; }
        return false;
      }
      if item.occurs.min == 0 || item.restricts {
        min := min + item.occurs.min;
        if max.Some? {
          if item.occurs.max.None? {
            max := None;
          } else {
            max := Some(max.value + item.occurs.max.value);
          }
        }
        assert items[..i + 1] == items[..i] + [item];
        i := i + 1;
        continue;
      }
      assert !ItemsAdmitted(items) by { assert items[i] == item; }
      return false;
    }
    assert items[..i] == items;
    return SumsWithin(min, max, base.occurs);
  }

  /** The sum of counts. */
  function Sum(counts: seq<nat>, i: nat): nat
    requires i <= |counts|
    decreases |counts| - i
  {
    if i == |counts| then 0 else counts[i] + Sum(counts, i + 1)
  }

  /**
   * Occurrence counts, each within the bounds of its item, sum up to a count within the
   * summed bounds.
   */
  lemma {:induction false} SumsAdmit(items: seq<RItem>, counts: seq<nat>, i: nat)
    requires |counts| == |items| && i <= |items|
    requires forall k :: i <= k < |items| ==> Admits(items[k].occurs, counts[k])
    ensures Admits(Occurs(SumMin(items, i), SumMax(items, i)), Sum(counts, i))
    decreases |items| - i
  {
    if i < |items| {
      SumsAdmit(items, counts, i + 1);
    }
  }

  /**
   * What a sequence or 'all' group accepted as a restriction of an element promises: any
   * number of elements the items can stand for within their own bounds is a number of
   * occurrences the base admits.
   */
  lemma ElementRestrictionAdmits(xsd10: bool, model: ModelKind, selfOccurs: Occurs, members: seq<RItem>,
                                 items: seq<RItem>, base: Base, counts: seq<nat>)
    requires model != Choice && ElementRestriction(xsd10, model, selfOccurs, members, items, base)
    requires |counts| == |items| && forall k :: 0 <= k < |items| ==> Admits(items[k].occurs, counts[k])
    ensures Admits(base.occurs, Sum(counts, 0))
    ensures forall k :: 0 <= k < |items| ==> !items[k].isGroup
  {
    SumsAdmit(items, counts, 0);
  }

  // ---- restriction of a choice by a group ----

  /**
   * What is_choice_restriction needs: the occurrences of the particles of the restricting
   * group (those of the referenced group for a reference) and of the base choice, and for
   * each pair whether the particle is the base particle or restricts it. `restricts[i][j]`
   * is about particle i of the group and particle j of the base.
   */
  datatype ChoicePair = ChoicePair(selfItems: seq<Occurs>, otherItems: seq<Occurs>, restricts: seq<seq<bool>>)

  predicate PairWf(c: ChoicePair)
  {
    |c.restricts| == |c.selfItems| && forall i :: 0 <= i < |c.restricts| ==> |c.restricts[i]| == |c.otherItems|
  }

  /** The larger of two maximum occurrences, an unbounded one absorbing both. */
  function MaxMax(a: Option<nat>, b: Option<nat>): (r: Option<nat>)
    ensures r.Some? <==> a.Some? && b.Some?
    ensures r.Some? ==> r.value >= a.value && r.value >= b.value
  {
    if a.None? || b.None? then None else Some(MaxNat(a.value, b.value))
  }

  /** The first position in `remaining` of a particle restricting base particle j. */
  function FirstRestricting(c: ChoicePair, remaining: seq<nat>, j: nat, k: nat): (r: Option<nat>)
    requires PairWf(c) && j < |c.otherItems| && k <= |remaining|
    requires forall t :: 0 <= t < |remaining| ==> remaining[t] < |c.selfItems|
    ensures r.Some? ==> k <= r.value < |remaining| && c.restricts[remaining[r.value]][j]
    ensures r.Some? ==> forall t :: k <= t < r.value ==> !c.restricts[remaining[t]][j]
    ensures r.None? ==> forall t :: k <= t < |remaining| ==> !c.restricts[remaining[t]][j]
    decreases |remaining| - k
  {
    if k == |remaining| then None
    else if c.restricts[remaining[k]][j] then Some(k)
    else FirstRestricting(c, remaining, j, k + 1)
  }

  /** The state of the scan of is_choice_restriction: the particles not yet matched and the two maxima. */
  datatype Scan = Scan(remaining: seq<nat>, max: Option<nat>, otherMax: Option<nat>)

  predicate ScanOk(c: ChoicePair, s: Scan)
  {
    forall t :: 0 <= t < |s.remaining| ==> s.remaining[t] < |c.selfItems|
  }

  function RemoveAt(xs: seq<nat>, k: nat): (r: seq<nat>)
    requires k < |xs|
    ensures |r| == |xs| - 1
    ensures forall t :: 0 <= t < |r| ==> r[t] in xs
  {
    xs[..k] + xs[k + 1..]
  }

  /**
   * One step for base particle j: the first remaining particle restricting it adds its
   * maximum to the sum, the base particle's maximum goes into the largest, and the
   * particle leaves the remaining ones; with no such particle nothing changes.
   */
  function ScanStep(c: ChoicePair, s: Scan, j: nat): (r: Scan)
    requires PairWf(c) && j < |c.otherItems| && ScanOk(c, s)
    ensures ScanOk(c, r)
  {
    match FirstRestricting(c, s.remaining, j, 0)
    case None => s
    case Some(k) =>
      Scan(RemoveAt(s.remaining, k), AddMax(s.max, c.selfItems[s.remaining[k]].max),
           MaxMax(s.otherMax, c.otherItems[j].max))
  }

  /** The scan over the base particles from j on. */
  function ScanFrom(c: ChoicePair, s: Scan, j: nat): (r: Scan)
    requires PairWf(c) && j <= |c.otherItems| && ScanOk(c, s)
    ensures ScanOk(c, r)
    ensures |r.remaining| <= |s.remaining|
    ensures |r.remaining| + (|c.otherItems| - j) >= |s.remaining|
    decreases |c.otherItems| - j
  {
    if j == |c.otherItems| then s else ScanFrom(c, ScanStep(c, s, j), j + 1)
  }

  function Indexes(n: nat): (r: seq<nat>)
    ensures |r| == n && forall t :: 0 <= t < n ==> r[t] == t
  {
    if n == 0 then [] else Indexes(n - 1) + [n - 1]
  }

  /**
   * The final decision of is_choice_restriction: every particle matched, then the largest
   * base maximum times the base's maximum must cover the summed maxima times the group's.
   * An unbounded side on the base accepts unless what it multiplies is zero.
   */
  function ChoiceVerdict(s: Scan, selfMax: Option<nat>, otherMax: Option<nat>): bool
  {
    if s.remaining != [] then false
    else
      var om: Option<nat> :=
        if s.otherMax.None? then (if otherMax != Some(0) then None else Some(0))
        else if otherMax.None? then (if s.otherMax != Some(0) then None else Some(0))
        else Some(s.otherMax.value * otherMax.value);
      if om.None? then true
      else if s.max.None? then selfMax == Some(0)
      else if selfMax.None? then s.max.value == 0
      else om.value >= s.max.value * selfMax.value
  }

  /**
   * is_choice_restriction: a group that is not a reference cannot be global when the base
   * is local; a reference only restricts a global base.
   */
  function ChoiceRestriction(c: ChoicePair, isRef: bool, selfGlobal: bool, otherGlobal: bool,
                             selfMax: Option<nat>, otherMax: Option<nat>): bool
    requires PairWf(c)
  {
    if !isRef && selfGlobal && !otherGlobal then false
    else if isRef && !otherGlobal then false
    else ChoiceVerdict(ScanFrom(c, Scan(Indexes(|c.selfItems|), Some(0), Some(0)), 0), selfMax, otherMax)
  }

  /** The inner loop of is_choice_restriction: the first remaining particle restricting base particle j. */
  method FindRestricting(c: ChoicePair, remaining: seq<nat>, j: nat) returns (found: bool, k: nat)
    requires PairWf(c) && j < |c.otherItems|
    requires forall t :: 0 <= t < |remaining| ==> remaining[t] < |c.selfItems|
    ensures found <==> FirstRestricting(c, remaining, j, 0).Some?
    ensures found ==> FirstRestricting(c, remaining, j, 0) == Some(k)
  {
    k := 0;
    while k < |remaining|
      invariant 0 <= k <= |remaining|
      invariant FirstRestricting(c, remaining, j, 0) == FirstRestricting(c, remaining, j, k)
      decreases |remaining| - k
    {
      if c.restricts[remaining[k]][j] {
        return true, k;
      }
      k := k + 1;
    }
    return false, k;
  }

  /** The loops of is_choice_restriction. */
  method IsChoiceRestriction(c: ChoicePair, isRef: bool, selfGlobal: bool, otherGlobal: bool,
                             selfMax: Option<nat>, otherMax: Option<nat>) returns (r: bool)
    requires PairWf(c)
    ensures r == ChoiceRestriction(c, isRef, selfGlobal, otherGlobal, selfMax, otherMax)
  {
    if !isRef && selfGlobal && !otherGlobal {
      return false;
    }
    if isRef && !otherGlobal {
      return false;
    }
    var remaining := Indexes(|c.selfItems|);
    var max: Option<nat> := Some(0);
    var om: Option<nat> := Some(0);
    var j := 0;
    while j < |c.otherItems|
      invariant 0 <= j <= |c.otherItems| && ScanOk(c, Scan(remaining, max, om))
      invariant ScanFrom(c, Scan(remaining, max, om), j)
                == ScanFrom(c, Scan(Indexes(|c.selfItems|), Some(0), Some(0)), 0)
      decreases |c.otherItems| - j
    {
      ghost var s0 := Scan(remaining, max, om);
      var found, k := FindRestricting(c, remaining, j);
      if found {
        max := AddMax(max, c.selfItems[remaining[k]].max);
        om := MaxMax(om, c.otherItems[j].max);
        remaining := RemoveAt(remaining, k);
      }
      assert Scan(remaining, max, om) == ScanStep(c, s0, j);
      assert ScanFrom(c, s0, j) == ScanFrom(c, ScanStep(c, s0, j), j + 1);
      j := j + 1;
    }
    return ChoiceVerdict(Scan(remaining, max, om), selfMax, otherMax);
  }

  /** The base particles matched by the scan from j on, each with the particle matched to it. */
  function Matched(c: ChoicePair, s: Scan, j: nat): (r: seq<(nat, nat)>)
    requires PairWf(c) && j <= |c.otherItems| && ScanOk(c, s)
    decreases |c.otherItems| - j
  {
    if j == |c.otherItems| then []
    else
      var rest := Matched(c, ScanStep(c, s, j), j + 1);
      match FirstRestricting(c, s.remaining, j, 0)
      case None => rest
      case Some(k) => [(s.remaining[k], j)] + rest
  }

  lemma RemoveAtKeeps(xs: seq<nat>, k: nat, x: nat)
    requires k < |xs| && x in xs && x != xs[k]
    ensures x in RemoveAt(xs, k)
  {
    var t :| 0 <= t < |xs| && xs[t] == x;
    if t < k { assert RemoveAt(xs, k)[t] == x; } else { assert RemoveAt(xs, k)[t - 1] == x; }
  }

  /** The pairs matched by the scan from j on join a particle to a base particle from j on that it restricts. */
  lemma {:induction false} MatchedWithin(c: ChoicePair, s: Scan, j: nat)
    requires PairWf(c) && j <= |c.otherItems| && ScanOk(c, s)
    ensures forall t :: 0 <= t < |Matched(c, s, j)| ==>
              var p := Matched(c, s, j)[t];
              p.0 < |c.selfItems| && j <= p.1 < |c.otherItems| && c.restricts[p.0][p.1]
    decreases |c.otherItems| - j
  {
    if j < |c.otherItems| {
      MatchedWithin(c, ScanStep(c, s, j), j + 1);
    }
  }

  /** The base particles matched by the scan are in increasing order, so no two are the same. */
  lemma {:induction false} MatchedOrdered(c: ChoicePair, s: Scan, j: nat)
    requires PairWf(c) && j <= |c.otherItems| && ScanOk(c, s)
    ensures forall t, u :: 0 <= t < u < |Matched(c, s, j)| ==> Matched(c, s, j)[t].1 < Matched(c, s, j)[u].1
    decreases |c.otherItems| - j
  {
    if j < |c.otherItems| {
      var s' := ScanStep(c, s, j);
      MatchedOrdered(c, s', j + 1);
      MatchedWithin(c, s', j + 1);
    }
  }

  /** x is still remaining after the scan from j on, or is matched by it. */
  ghost predicate Accounted(c: ChoicePair, s: Scan, j: nat, x: nat)
    requires PairWf(c) && j <= |c.otherItems| && ScanOk(c, s)
  {
    x in ScanFrom(c, s, j).remaining || exists t :: 0 <= t < |Matched(c, s, j)| && Matched(c, s, j)[t].0 == x
  }

  /**
   * Every particle that was remaining before the scan from j is either still remaining
   * after it or is matched to a base particle by it.
   */
  lemma {:induction false} MatchedAccounts(c: ChoicePair, s: Scan, j: nat)
    requires PairWf(c) && j <= |c.otherItems| && ScanOk(c, s)
    ensures forall x :: x in s.remaining ==> Accounted(c, s, j, x)
    decreases |c.otherItems| - j
  {
    if j < |c.otherItems| {
      var s' := ScanStep(c, s, j);
      MatchedAccounts(c, s', j + 1);
      forall x | x in s.remaining ensures Accounted(c, s, j, x) {
        AccountedAtStep(c, s, j, x);
      }
    }
  }

  /** One step of MatchedAccounts: x stays for the scan from j + 1, or base particle j takes it. */
  lemma AccountedAtStep(c: ChoicePair, s: Scan, j: nat, x: nat)
    requires PairWf(c) && j < |c.otherItems| && ScanOk(c, s) && x in s.remaining
    requires x in ScanStep(c, s, j).remaining ==> Accounted(c, ScanStep(c, s, j), j + 1, x)
    ensures Accounted(c, s, j, x)
  {
    var s' := ScanStep(c, s, j);
    assert ScanFrom(c, s, j) == ScanFrom(c, s', j + 1);
    var m := Matched(c, s, j);
    var rest := Matched(c, s', j + 1);
    match FirstRestricting(c, s.remaining, j, 0)
    case None =>
      assert s' == s && m == rest;
    case Some(k) =>
      assert m == [(s.remaining[k], j)] + rest;
      if x == s.remaining[k] {
        assert 0 < |m| && m[0].0 == x;
      } else {
        RemoveAtKeeps(s.remaining, k, x);
        if x !in ScanFrom(c, s', j + 1).remaining {
          var t :| 0 <= t < |rest| && rest[t].0 == x;
          assert m[t + 1].0 == x;
        }
      }
  }

  /**
   * What an accepted choice restriction promises: each particle of the group is mapped to
   * a base particle it restricts, no two to the same one.
   */
  lemma ChoiceRestrictionMaps(c: ChoicePair, isRef: bool, selfGlobal: bool, otherGlobal: bool,
                              selfMax: Option<nat>, otherMax: Option<nat>) returns (m: seq<nat>)
    requires PairWf(c) && ChoiceRestriction(c, isRef, selfGlobal, otherGlobal, selfMax, otherMax)
    ensures |m| == |c.selfItems|
    ensures forall i :: 0 <= i < |m| ==> m[i] < |c.otherItems| && c.restricts[i][m[i]]
    ensures forall i, i' :: 0 <= i < i' < |m| ==> m[i] != m[i']
    ensures |c.selfItems| <= |c.otherItems|
    ensures isRef ==> otherGlobal
    ensures !isRef && selfGlobal ==> otherGlobal
  {
    var s := Scan(Indexes(|c.selfItems|), Some(0), Some(0));
    MatchedWithin(c, s, 0);
    MatchedOrdered(c, s, 0);
    MatchedAccounts(c, s, 0);
    var pairs := Matched(c, s, 0);
    assert ScanFrom(c, s, 0).remaining == [];
    forall i | 0 <= i < |c.selfItems| ensures Paired(pairs, i) {
      assert s.remaining[i] == i;
      assert i in s.remaining;
      assert i !in ScanFrom(c, s, 0).remaining;
    }
    m := MapOfPairs(c, pairs);
  }

  /** Particle i is joined to some base particle by the pairs. */
  predicate Paired(pairs: seq<(nat, nat)>, i: nat)
  {
    exists t :: 0 <= t < |pairs| && pairs[t].0 == i
  }

  /**
   * From pairs joining particles to base particles they restrict, in increasing base order
   * and covering every particle, a map taking each particle to a distinct base particle.
   */
  lemma MapOfPairs(c: ChoicePair, pairs: seq<(nat, nat)>) returns (m: seq<nat>)
    requires PairWf(c)
    requires forall t :: 0 <= t < |pairs| ==>
               pairs[t].0 < |c.selfItems| && pairs[t].1 < |c.otherItems| && c.restricts[pairs[t].0][pairs[t].1]
    requires forall t, u :: 0 <= t < u < |pairs| ==> pairs[t].1 < pairs[u].1
    requires forall i :: 0 <= i < |c.selfItems| ==> Paired(pairs, i)
    ensures |m| == |c.selfItems|
    ensures forall i :: 0 <= i < |m| ==> m[i] < |c.otherItems| && c.restricts[i][m[i]]
    ensures forall i, i' :: 0 <= i < i' < |m| ==> m[i] != m[i']
  {
    m := [];
    var ts: seq<nat> := [];
    var i := 0;
    while i < |c.selfItems|
      invariant 0 <= i <= |c.selfItems| && |m| == i && |ts| == i
      invariant forall i0 :: 0 <= i0 < i ==> ts[i0] < |pairs| && pairs[ts[i0]] == (i0, m[i0])
      decreases |c.selfItems| - i
    {
      assert Paired(pairs, i);
      var t :| 0 <= t < |pairs| && pairs[t].0 == i;
      m := m + [pairs[t].1];
      ts := ts + [t];
      i := i + 1;
    }
    forall i, i' | 0 <= i < i' < |m| ensures m[i] != m[i'] {
      assert ts[i] != ts[i'];
    }
  }

  // ---- the determinism check ----

  /**
   * check_model of a group: safe_iter_path starts from the depth limit and fails when it
   * reaches zero, so the model passes only when every group is nested less than maxDepth
   * levels deep, and a limit of zero fails at once.
   */
  method CheckModel(root: Particle, anyElement: Option<Wildcard>, globals: map<string, ElementDecl>, maxDepth: nat)
    returns (r: Result<seq<Precedence>, ModelError>)
    requires root.Group?
    ensures r == Err(DepthError) ==> Depth(root) >= maxDepth
    ensures r.Ok? ==> Depth(root) < maxDepth
    ensures maxDepth == 0 ==> r == Err(DepthError)
  {
    if maxDepth == 0 {
      return Err(DepthError);
    }
    r := Models.CheckModel(root, anyElement, globals, maxDepth - 1);
  }

  /**
   * XsdGroup.children_validation_error: the error about child `index` of element `elem` is
   * raised in strict mode and handed back, not collected, in the other modes.
   */
  function ChildrenValidationError(validation: Validation.Mode, elem: nat, index: nat, reason: string)
    : (r: Validation.Outcome)
    ensures r.error.elem == Some(elem) && r.error.index == Some(index) && r.error.reason == Some(reason)
    ensures r.Raised? <==> validation == Validation.Strict
  {
    var e := Validation.VError(Some(reason), None, Some(elem), Some(index));
    if validation == Validation.Strict then Validation.Raised(e) else Validation.Returned(e)
  }

  // ---- decoding: the children of an element through the model ----

  /** A child of the element decoded: its tag, whether it is a comment, its tail, and whether decoding it gives data. */
  datatype Node = Node(tag: string, comment: bool, tail: Option<string>, gives: bool)

  /** The errors of a group's own decoding and encoding. */
  datatype GroupError =
    | EmptyChoice
    | CDataNotAllowed
    | DepthExceeded
    | WrongContentType
    | UnknownName(name: string)
    | ChildError(index: int, particle: Particle, occurs: nat, expected: Option<seq<Particle>>)

  /** An entry of the decoded result list: a character data part with its key, or the data of a child. */
  datatype Entry = CDataPart(key: nat, text: string) | ChildPart(position: nat)

  /** What decoding a content gives: the errors yielded and the result list, an error raised, or an exception of the visitor. */
  datatype DecodeOutcome =
    | Decoded(errors: seq<GroupError>, result: seq<Entry>)
    | DecodeRaised(error: GroupError)
    | DecodeFailed(failure: VisitError)

  /** The wildcards of an XSD 1.1 open content: one interleaved anywhere, one only after the model. */
  datatype OpenContent = OpenContent(interleave: Option<Wildcard>, suffix: Option<Wildcard>)

  /** What a child or a content item is decoded or encoded with. */
  datatype Decoder = ByModel(p: Particle) | ByOpenContent(w: Wildcard)

  /** not_whitespace: a text that is there and is not blank. */
  predicate NotWhitespace(t: Option<string>)
  {
    t.Some? && Strip(t.value) != []
  }

  /** A group of just one wildcard stands for an empty complex type declaration. */
  predicate SingleWildcard(g: Particle)
    requires g.Group?
  {
    |g.items| == 1 && g.items[0].Leaf? && g.items[0].kind.WildcardLeaf?
  }

  /** Character data in the text of the element or in the tail of a child. */
  predicate HasCData(text: Option<string>, children: seq<Node>)
  {
    NotWhitespace(text) || exists k :: 0 <= k < |children| && NotWhitespace(children[k].tail)
  }

  /** The decoder's test that character data is in a place where it is not allowed. */
  predicate CDataRejected(g: Particle, text: Option<string>, children: seq<Node>)
    requires g.Group?
  {
    !g.mixed && HasCData(text, children) && !SingleWildcard(g)
  }

  /** The empty choice that cannot validate any content. */
  predicate EmptyRequiredChoice(g: Particle)
    requires g.Group?
  {
    g.items == [] && g.model == Choice && g.goccurs.min > 0
  }

  /** is_matching of an open content wildcard, with the group's context for an XSD 1.1 one. */
  predicate OpenMatches(w: Option<Wildcard>, name: string, dns: string, globals: map<string, ElementDecl>, g: Particle,
                       occurs: Option<nat -> nat>)
  {
    w.Some? &&
    if w.value.xsd11 then Xsd11IsMatching(w.value, map[], Some(name), dns, globals, Some(ContextOf(g)), occurs)
    else Wildcards.IsMatching(w.value, Some(name), dns)
  }

  /** The first of ps from k on that matches the name. */
  function FirstMatchFrom(ps: seq<Particle>, k: nat, name: string, dns: string, globals: map<string, ElementDecl>,
                          ctx: GroupContext): (r: Option<Particle>)
    requires k <= |ps|
    ensures r.Some? ==> r.value in ps[k..] && LeafMatches(r.value, name, dns, globals, ctx, None)
    ensures r.None? ==> forall t :: k <= t < |ps| ==> !LeafMatches(ps[t], name, dns, globals, ctx, None)
    decreases |ps| - k
  {
    if k == |ps| then None
    else if LeafMatches(ps[k], name, dns, globals, ctx, None) then Some(ps[k])
    else FirstMatchFrom(ps, k + 1, name, dns, globals, ctx)
  }

  /**
   * match_element: the model-less match of a child, the first element or wildcard of the
   * group that matches the name.
   */
  function MatchElement(g: Particle, name: string, dns: string, globals: map<string, ElementDecl>): (r: Option<Particle>)
    requires g.Group?
    ensures r.Some? ==> r.value in IterElements(g) && LeafMatches(r.value, name, dns, globals, ContextOf(g), None)
    ensures r.None? <==> forall p :: p in IterElements(g) ==> !LeafMatches(p, name, dns, globals, ContextOf(g), None)
  {
    var r := FirstMatchFrom(IterElements(g), 0, name, dns, globals, ContextOf(g));
    assert IterElements(g)[0..] == IterElements(g);
    r
  }

  /** The violations of the visitor as errors about the child `index`. */
  function Indexed(index: int, vs: seq<Violation>): (r: seq<GroupError>)
    ensures |r| == |vs|
    ensures forall k :: 0 <= k < |r| ==> r[k] == ChildError(index, vs[k].particle, vs[k].count, Some(vs[k].expected))
  {
    if vs == [] then [] else [ChildError(index, vs[0].particle, vs[0].count, Some(vs[0].expected))] + Indexed(index, vs[1..])
  }

  /** errors starts with errors0 and goes on with errors about the child `index` only. */
  predicate ExtendsAt(errors: seq<GroupError>, errors0: seq<GroupError>, index: int)
  {
    |errors0| <= |errors| && errors[..|errors0|] == errors0
    && forall k :: |errors0| <= k < |errors| ==> errors[k].ChildError? && errors[k].index == index
  }

  /**
   * The inner loop of iter_decode for one child: while the model has a current element,
   * a match advances the model; a child matched by the interleaved wildcard goes to it;
   * otherwise the model advances without a match, and its first violation breaks the model
   * (it is cleared) and the child is matched without the model. When the model has no
   * element left, the suffix wildcard or a model-less match takes the child, and the first
   * such child after the model ended, or one that matches nothing, is an error. A child
   * matched by nothing always adds an error.
   */
  method MatchChild(model: ModelVisitor, g: Particle, tag: string, index: nat, errors0: seq<GroupError>, broken0: bool,
                    dns: string, globals: map<string, ElementDecl>, open: OpenContent)
    returns (xsd: Option<Decoder>, errors: seq<GroupError>, broken: bool, failed: Option<VisitError>)
    requires model.Valid() && model.root == g
    modifies model
    ensures model.Valid()
    ensures failed.None? ==> ExtendsAt(errors, errors0, index)
    ensures failed.None? ==> (broken0 ==> broken)
    ensures failed.None? && xsd.None? ==> |errors| > |errors0| && broken && MatchElement(g, tag, dns, globals).None?
    ensures failed.None? && xsd.Some? && xsd.value.ByModel? ==> xsd.value.p.Leaf?
    ensures failed != Some(Ended) && failed != Some(IndexError)
  {
    errors := errors0;
    broken := broken0;
    var fuel := STEP_LIMIT;
    assert errors[..|errors0|] == errors0;
    while model.element.Some?
      invariant model.Valid() && model.root == g
      invariant ExtendsAt(errors, errors0, index) && (broken0 ==> broken)
      decreases fuel
    {
      if fuel == 0 {
        return None, errors, broken, Some(StepLimit);
      }
      fuel := fuel - 1;
      var e := model.element.value;
      if LeafMatches(e, tag, dns, globals, ContextOf(g), Some(CountsOf(model.occurs))) {
        var vs, err := model.AdvanceValid(true);
        var more := Indexed(index, vs);
        assert (errors + more)[..|errors0|] == errors0;
        errors := errors + more;
        if err.Some? {
          return None, errors, broken, err;
        }
        return Some(ByModel(e)), errors, broken, None;
      }
      if OpenMatches(open.interleave, tag, dns, globals, g, Some(CountsOf(model.occurs))) {
        return Some(ByOpenContent(open.interleave.value)), errors, broken, None;
      }
      var vs, err := model.AdvanceValid(false);
      if vs != [] {
        var more := Indexed(index, [vs[0]]);
        assert (errors + more)[..|errors0|] == errors0;
        errors := errors + more;
        model.Clear();
        var m := MatchElement(g, tag, dns, globals);
        if m.None? {
          return None, errors, true, None;
        }
        return Some(ByModel(m.value)), errors, true, None;
      }
      if err.Some? {
        return None, errors, broken, err;
      }
    }
    if OpenMatches(open.suffix, tag, dns, globals, g, None) {
      return Some(ByOpenContent(open.suffix.value)), errors, broken, None;
    }
    var m := MatchElement(g, tag, dns, globals);
    if m.None? {
      assert (errors + [ChildError(index, g, 0, None)])[..|errors0|] == errors0;
      return None, errors + [ChildError(index, g, 0, None)], true, None;
    }
    if !broken {
      assert (errors + [ChildError(index, m.value, 0, Some([]))])[..|errors0|] == errors0;
      return Some(ByModel(m.value)), errors + [ChildError(index, m.value, 0, Some([]))], true, None;
    }
    return Some(ByModel(m.value)), errors, broken, None;
  }

  /**
   * The errors about children: each about a child that is not a comment, or about the end
   * of the children (position |children|), all below `bound`, in child order.
   */
  predicate ChildErrorsOk(errors: seq<GroupError>, children: seq<Node>, bound: nat)
  {
    (forall k :: 0 <= k < |errors| ==>
       errors[k].ChildError? && 0 <= errors[k].index < bound && errors[k].index <= |children|
       && (errors[k].index < |children| ==> !children[errors[k].index].comment))
    && forall k, k' :: 0 <= k < k' < |errors| ==> errors[k].index <= errors[k'].index
  }

  /**
   * The result list: the data of children that are not comments, in child order and below
   * `bound`; the keys of character data parts positive and increasing; never two character
   * data parts side by side.
   */
  predicate ResultWf(result: seq<Entry>, children: seq<Node>, bound: nat)
  {
    (forall k :: 0 <= k < |result| && result[k].ChildPart? ==>
       result[k].position < bound && result[k].position < |children|
       && !children[result[k].position].comment && children[result[k].position].gives)
    && (forall k, k' :: 0 <= k < k' < |result| && result[k].ChildPart? && result[k'].ChildPart? ==>
          result[k].position < result[k'].position)
    && (forall k, k' :: 0 <= k < k' < |result| && result[k].CDataPart? && result[k'].CDataPart? ==>
          result[k].key < result[k'].key)
    && (forall k, k' :: 0 <= k < |result| && 0 <= k' < |result| && k' == k + 1 && result[k].CDataPart? ==> !result[k'].CDataPart?)
  }

  /** ResultWf with every key of character data below `next`, the key of the next part. */
  predicate ResultOk(result: seq<Entry>, children: seq<Node>, bound: nat, next: nat)
  {
    ResultWf(result, children, bound)
    && forall k :: 0 <= k < |result| && result[k].CDataPart? ==> 1 <= result[k].key < next
  }

  /**
   * A tail after the data of a child: it is joined with a space to a character data part
   * that ends the list, else it becomes a new part under the next key.
   */
  function AddTail(result: seq<Entry>, next: nat, tail: string): (r: (seq<Entry>, nat))
  {
    if result != [] && result[|result| - 1].CDataPart? then
      var last := result[|result| - 1];
      (result[..|result| - 1] + [CDataPart(last.key, last.text + " " + tail)], next)
    else (result + [CDataPart(next, tail)], next + 1)
  }

  lemma AddTailOk(result: seq<Entry>, children: seq<Node>, bound: nat, next: nat, tail: string)
    requires ResultOk(result, children, bound, next) && next >= 1
    ensures ResultOk(AddTail(result, next, tail).0, children, bound, AddTail(result, next, tail).1)
    ensures AddTail(result, next, tail).1 >= next
  {
    var r := AddTail(result, next, tail).0;
    if result != [] && result[|result| - 1].CDataPart? {
      assert forall k :: 0 <= k < |result| - 1 ==> r[k] == result[k];
    } else {
      assert forall k :: 0 <= k < |result| ==> r[k] == result[k];
    }
  }

  lemma AddChildOk(result: seq<Entry>, children: seq<Node>, index: nat, next: nat)
    requires ResultOk(result, children, index, next)
    requires index < |children| && !children[index].comment && children[index].gives
    ensures ResultOk(result + [ChildPart(index)], children, index + 1, next)
  {
    var r := result + [ChildPart(index)];
    assert forall k :: 0 <= k < |result| ==> r[k] == result[k];
  }

  /**
   * The invariant of the result list while decoding: ResultOk, only child data once the
   * character data is no longer decoded (next key zero), and the first part, the text of
   * the element, still first and only ever extended by tails.
   */
  predicate Kept(result: seq<Entry>, children: seq<Node>, bound: nat, next: nat, first: seq<Entry>)
  {
    ResultOk(result, children, bound, if next == 0 then 1 else next)
    && (next == 0 ==> forall k :: 0 <= k < |result| ==> result[k].ChildPart?)
    && (first != [] ==>
          first[0].CDataPart? && result != [] && result[0].CDataPart? && result[0].key == 1 && first[0].text <= result[0].text)
  }

  lemma KeptWider(result: seq<Entry>, children: seq<Node>, bound: nat, next: nat, first: seq<Entry>)
    requires Kept(result, children, bound, next, first)
    ensures Kept(result, children, bound + 1, next, first)
  {
  }

  lemma TailKeepsFirst(result: seq<Entry>, next: nat, tail: string, first: seq<Entry>)
    requires first != [] && first[0].CDataPart? && result != [] && result[0].CDataPart? && result[0].key == 1
    requires first[0].text <= result[0].text
    ensures var r := AddTail(result, next, tail).0; r != [] && r[0].CDataPart? && r[0].key == 1 && first[0].text <= r[0].text
  {
    var r := AddTail(result, next, tail).0;
    if |result| == 1 && result[0].CDataPart? {
      assert r[0].text == result[0].text + " " + tail;
    } else {
      assert r[0] == result[0];
    }
  }

  /**
   * The data of a child decoded with a converter, then its tail when character data is
   * still decoded.
   */
  method KeepChildData(result: seq<Entry>, next: nat, children: seq<Node>, index: nat, ghost first: seq<Entry>)
    returns (result': seq<Entry>, next': nat)
    requires index < |children| && !children[index].comment
    requires Kept(result, children, index, next, first)
    ensures Kept(result', children, index + 1, next', first)
    ensures (next == 0) <==> (next' == 0)
  {
    var child := children[index];
    result', next' := result, next;
    if child.gives {
      AddChildOk(result, children, index, if next == 0 then 1 else next);
      result' := result + [ChildPart(index)];
      assert first != [] ==> result'[0] == result[0];
    } else {
      KeptWider(result, children, index, next, first);
    }
    if next != 0 && child.tail.Some? {
      var t := Strip(child.tail.value);
      if t != [] {
        AddTailOk(result', children, index + 1, next, t);
        if first != [] {
          TailKeepsFirst(result', next, t, first);
        }
        var added := AddTail(result', next, t);
        result', next' := added.0, added.1;
      }
    }
  }

  lemma ChildErrorsAt(errors: seq<GroupError>, errors': seq<GroupError>, children: seq<Node>, index: nat)
    requires ChildErrorsOk(errors, children, index) && ExtendsAt(errors', errors, index)
    requires index < |children| && !children[index].comment
    ensures ChildErrorsOk(errors', children, index + 1)
  {
    assert forall k :: 0 <= k < |errors| ==> errors'[k] == errors[k];
  }

  lemma ChildErrorsWider(errors: seq<GroupError>, children: seq<Node>, bound: nat)
    requires ChildErrorsOk(errors, children, bound)
    ensures ChildErrorsOk(errors, children, bound + 1)
  {
  }

  lemma ChildErrorsAtEnd(errors: seq<GroupError>, vs: seq<Violation>, children: seq<Node>)
    requires ChildErrorsOk(errors, children, |children|)
    ensures ChildErrorsOk(errors + Indexed(|children|, vs), children, |children| + 1)
  {
    var e := errors + Indexed(|children|, vs);
    assert forall k :: 0 <= k < |errors| ==> e[k] == errors[k];
  }

  /** One turn of the loop of iter_decode: a comment is skipped, any other child is matched and its data kept. */
  method VisitChild(model: ModelVisitor, g: Particle, children: seq<Node>, index: nat, errors0: seq<GroupError>,
                    broken0: bool, result0: seq<Entry>, next0: nat, ghost first: seq<Entry>,
                    dns: string, globals: map<string, ElementDecl>, open: OpenContent, keep: bool)
    returns (errors: seq<GroupError>, broken: bool, result: seq<Entry>, next: nat, failed: Option<VisitError>)
    requires model.Valid() && model.root == g && index < |children|
    requires ChildErrorsOk(errors0, children, index) && Kept(result0, children, index, next0, first)
    requires !keep ==> result0 == first
    modifies model
    ensures model.Valid()
    ensures failed.None? ==> ChildErrorsOk(errors, children, index + 1) && Kept(result, children, index + 1, next, first)
    ensures (next0 == 0) <==> (next == 0)
    ensures !keep ==> result == first
    ensures failed != Some(Ended) && failed != Some(IndexError)
  {
    errors, broken, result, next, failed := errors0, broken0, result0, next0, None;
    var child := children[index];
    if child.comment {
      KeptWider(result, children, index, next, first);
      ChildErrorsWider(errors, children, index);
      return;
    }
    var xsd;
    xsd, errors, broken, failed := MatchChild(model, g, child.tag, index, errors0, broken0, dns, globals, open);
    if failed.Some? {
      return;
    }
    ChildErrorsAt(errors0, errors, children, index);
    if xsd.Some? && keep {
      result, next := KeepChildData(result, next, children, index, first);
    } else {
      KeptWider(result, children, index, next, first);
    }
  }

  /**
   * The loop of iter_decode over the children and the final stop of the model: the errors
   * about the children and the result list extended with the data kept (only when `keep`).
   */
  method WalkChildren(g: Particle, children: seq<Node>, dns: string, globals: map<string, ElementDecl>,
                      open: OpenContent, keep: bool, result0: seq<Entry>, next0: nat, ghost first: seq<Entry>)
    returns (errors: seq<GroupError>, result: seq<Entry>, next: nat, failed: Option<VisitError>)
    requires g.Group? && Kept(result0, children, 0, next0, first)
    requires !keep ==> result0 == first
    ensures failed.None? ==> ChildErrorsOk(errors, children, |children| + 1)
    ensures failed.None? ==> Kept(result, children, |children|, next, first)
    ensures (next0 == 0) <==> (next == 0)
    ensures !keep ==> result == first
    ensures failed != Some(Ended) && failed != Some(IndexError)
  {
    result, next, failed := result0, next0, None;
    var model := new ModelVisitor(g);
    errors := [];
    var broken := false;
    var index := 0;
    while index < |children|
      invariant 0 <= index <= |children| && model.Valid() && model.root == g
      invariant ChildErrorsOk(errors, children, index)
      invariant Kept(result, children, index, next, first)
      invariant (next0 == 0) <==> (next == 0)
      invariant !keep ==> result == first
      decreases |children| - index
    {
      var err;
      errors, broken, result, next, err := VisitChild(model, g, children, index, errors, broken, result, next, first,
                                                      dns, globals, open, keep);
      if err.Some? {
        return errors, result, next, err;
      }
      index := index + 1;
    }
    errors, failed := StopChildren(model, g, children, errors);
  }

  /** The end of iter_decode's loop: what the model still expects is reported at position |children|. */
  method StopChildren(model: ModelVisitor, g: Particle, children: seq<Node>, errors0: seq<GroupError>)
    returns (errors: seq<GroupError>, failed: Option<VisitError>)
    requires model.Valid() && ChildErrorsOk(errors0, children, |children|)
    modifies model
    ensures failed.None? ==> ChildErrorsOk(errors, children, |children| + 1)
    ensures failed != Some(Ended) && failed != Some(IndexError)
  {
    errors, failed := errors0, None;
    if model.element.Some? {
      var vs, err := model.Stop();
      if err.Some? {
        return errors, err;
      }
      ChildErrorsAtEnd(errors, vs, children);
      errors := errors + Indexed(|children|, vs);
    } else {
      ChildErrorsWider(errors, children, |children|);
    }
  }

  /** The text of the element as the first character data part, when it is not blank. */
  function TextPart(text: Option<string>): (r: seq<Entry>)
    ensures |r| <= 1
    ensures NotWhitespace(text) ==> r == [CDataPart(1, Strip(text.value))]
    ensures !NotWhitespace(text) ==> r == []
  {
    if text.Some? && Strip(text.value) != [] then [CDataPart(1, Strip(text.value))] else []
  }

  lemma KeptAtStart(text: Option<string>, children: seq<Node>, rejected: bool)
    ensures var result := if rejected then [] else TextPart(text);
            Kept(result, children, 0, if rejected then 0 else 1 + |result|, result)
  {
    if rejected || !NotWhitespace(text) {
      KeptEmpty(children, if rejected then 0 else 1);
    } else {
      KeptText(Strip(text.value), children);
    }
  }

  lemma KeptEmpty(children: seq<Node>, next: nat)
    ensures Kept([], children, 0, next, [])
  {
  }

  lemma KeptText(t: string, children: seq<Node>)
    ensures Kept([CDataPart(1, t)], children, 0, 2, [CDataPart(1, t)])
  {
  }

  /**
   * What the decoding of a content promises when it yields its result: the error about
   * character data first when there is one (and then no character data in the result), the
   * errors about children in child order, a well-formed result list whose first part is the
   * text of the element when that is decoded, and no child data when it is not kept.
   */
  predicate DecodedOk(g: Particle, text: Option<string>, children: seq<Node>, errors: seq<GroupError>,
                      result: seq<Entry>, keep: bool)
    requires g.Group?
  {
    (if CDataRejected(g, text, children) then
       errors != [] && errors[0] == CDataNotAllowed && ChildErrorsOk(errors[1..], children, |children| + 1)
       && forall k :: 0 <= k < |result| ==> result[k].ChildPart?
     else ChildErrorsOk(errors, children, |children| + 1))
    && ResultWf(result, children, |children|)
    && (forall k :: 0 <= k < |result| && result[k].CDataPart? ==> result[k].key >= 1)
    && (!CDataRejected(g, text, children) && NotWhitespace(text) ==>
          result != [] && result[0].CDataPart? && result[0].key == 1 && Strip(text.value) <= result[0].text)
    && (!keep ==> forall k :: 0 <= k < |result| ==> result[k].CDataPart?)
  }

  lemma DecodedIntro(g: Particle, text: Option<string>, children: seq<Node>, errors: seq<GroupError>,
                     result: seq<Entry>, next: nat, keep: bool)
    requires g.Group?
    requires ChildErrorsOk(errors, children, |children| + 1)
    requires var first := if CDataRejected(g, text, children) then [] else TextPart(text);
             Kept(result, children, |children|, next, first) && (!keep ==> result == first)
             && (CDataRejected(g, text, children) <==> next == 0)
    ensures DecodedOk(g, text, children, if CDataRejected(g, text, children) then [CDataNotAllowed] + errors else errors,
                      result, keep)
  {
    var first := if CDataRejected(g, text, children) then [] else TextPart(text);
    assert ResultOk(result, children, |children|, if next == 0 then 1 else next);
    assert !keep ==> forall k :: 0 <= k < |result| ==> result[k].CDataPart? by {
      if !keep {
        assert result == first && |first| <= 1;
        if first != [] { assert first[0].CDataPart?; }
      }
    }
    if CDataRejected(g, text, children) {
      assert ([CDataNotAllowed] + errors)[1..] == errors;
    } else if NotWhitespace(text) {
      assert first == [CDataPart(1, Strip(text.value))];
    }
  }

  /**
   * iter_decode of a group once the empty choice, the strict rejection of character data
   * and the depth limit are passed: the text part, the walk over the children, the errors
   * yielded (the first raised in strict mode).
   */
  method DecodeBody(g: Particle, text: Option<string>, children: seq<Node>, validation: Validation.Mode,
                    dns: string, globals: map<string, ElementDecl>, open: OpenContent, keep: bool)
    returns (r: DecodeOutcome)
    requires g.Group? && !(CDataRejected(g, text, children) && validation == Validation.Strict)
    ensures r.Decoded? && validation == Validation.Strict ==> r.errors == []
    ensures r.Decoded? ==> DecodedOk(g, text, children, r.errors, r.result, keep)
    ensures !r.DecodeFailed? ==> r.Decoded? || validation == Validation.Strict
    ensures r.DecodeFailed? ==> r.failure != Ended && r.failure != IndexError
  {
    var rejected := CDataRejected(g, text, children);
    var first := if rejected then [] else TextPart(text);
    var next: nat := if rejected then 0 else 1 + |first|;
    KeptAtStart(text, children, rejected);
    var errors, result, next', failed := WalkChildren(g, children, dns, globals, open, keep, first, next, first);
    if failed.Some? {
      r := DecodeFailed(failed.value);
    } else if validation == Validation.Strict && errors != [] {
      r := DecodeRaised(errors[0]);
    } else {
      DecodedIntro(g, text, children, errors, result, next', keep);
      r := Decoded(if rejected then [CDataNotAllowed] + errors else errors, result);
    }
  }

  /**
   * iter_decode of a group: the errors it yields and its result list. An empty choice with
   * a minimum cannot validate anything; character data where the group does not allow it is
   * an error and is then no longer decoded; each child that is not a comment goes through
   * the model, and the errors about it carry its position; what the model still expects at
   * the end is reported at position |children|. In strict mode the first error is raised.
   * The data of the children is kept only with a converter and within the depth limit.
   */
  method DecodeChildren(g: Particle, text: Option<string>, children: seq<Node>, validation: Validation.Mode,
                        dns: string, globals: map<string, ElementDecl>, open: OpenContent,
                        converter: bool, level: nat, maxDepth: Option<nat>, maxXmlDepth: nat)
    returns (r: DecodeOutcome)
    requires g.Group?
    ensures EmptyRequiredChoice(g) ==>
              r == (if validation == Validation.Strict then DecodeRaised(EmptyChoice) else Decoded([EmptyChoice], []))
    ensures !EmptyRequiredChoice(g) && CDataRejected(g, text, children) && validation == Validation.Strict ==>
              r == DecodeRaised(CDataNotAllowed)
    ensures r.Decoded? && validation == Validation.Strict ==> r.errors == []
    ensures r.Decoded? && !EmptyRequiredChoice(g) ==>
              DecodedOk(g, text, children, r.errors, r.result, converter && !(maxDepth.Some? && maxDepth.value <= level + 1))
    ensures level + 1 > maxXmlDepth && !EmptyRequiredChoice(g) && !(CDataRejected(g, text, children) && validation == Validation.Strict) ==>
              r == DecodeRaised(DepthExceeded)
    ensures r.DecodeFailed? ==> r.failure != Ended && r.failure != IndexError
  {
    if EmptyRequiredChoice(g) {
      if validation == Validation.Strict {
        return DecodeRaised(EmptyChoice);
      }
      return Decoded([EmptyChoice], []);
    }
    if CDataRejected(g, text, children) && validation == Validation.Strict {
      return DecodeRaised(CDataNotAllowed);
    }
    var lvl := level + 1;
    var overMaxDepth := maxDepth.Some? && maxDepth.value <= lvl;
    if lvl > maxXmlDepth {
      return DecodeRaised(DepthExceeded);
    }
    r := DecodeBody(g, text, children, validation, dns, globals, open, converter && !overMaxDepth);
  }
}
