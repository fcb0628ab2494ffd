// Simple types: the consistency checks run over the facets of a restriction, the effective
// bounds min_value/max_value, white-space normalisation, emptiness, and the decoding of list
// and union values through their item and member types.
module SimpleTypes {
  import opened Wrappers
  import Strs
  import F = Facets

  const XSD_ANY_SIMPLE_TYPE := "{http://www.w3.org/2001/XMLSchema}anySimpleType"

  // ---- comparing facet values ----

  /**
   * Python's comparison of two facet values; None where it raises a TypeError: a None value,
   * values of different types, or values Facets.Cmp cannot order.
   */
  function Compare(a: Option<F.FacetValue>, b: Option<F.FacetValue>): (r: Option<F.Order>)
    ensures r.Some? ==> a.Some? && b.Some?
    ensures a.Some? && b.Some? && a.value.IntV? && b.value.IntV? ==> r == Some(F.IntCmp(a.value.i, b.value.i))
    ensures a.Some? && b.Some? && a.value.ValV? && b.value.ValV? ==> r == F.Cmp(a.value.v, Some(b.value.v))
  {
    if a.None? || b.None? then None
    else if a.value.IntV? && b.value.IntV? then Some(F.IntCmp(a.value.i, b.value.i))
    else if a.value.TextV? && b.value.TextV? then Some(F.StrCmp(a.value.s, b.value.s))
    else if a.value.ValV? && b.value.ValV? then F.Cmp(a.value.v, Some(b.value.v))
    else None
  }

  /** The comparison operators; None where Python raises a TypeError. */
  function Lt(a: Option<F.FacetValue>, b: Option<F.FacetValue>): (r: Option<bool>)
    ensures IntVal(a).Some? && IntVal(b).Some? ==> r == Some(IntVal(a).value < IntVal(b).value)
  {
    var c := Compare(a, b);
    if c.None? then None else Some(c.value == F.Below)
  }

  function Gt(a: Option<F.FacetValue>, b: Option<F.FacetValue>): (r: Option<bool>)
    ensures IntVal(a).Some? && IntVal(b).Some? ==> r == Some(IntVal(a).value > IntVal(b).value)
  {
    var c := Compare(a, b);
    if c.None? then None else Some(c.value == F.Above)
  }

  function Ge(a: Option<F.FacetValue>, b: Option<F.FacetValue>): Option<bool>
  {
    var c := Compare(a, b);
    if c.None? then None else Some(c.value != F.Below)
  }

  /** The integer a facet value holds, if it holds one. */
  function IntVal(v: Option<F.FacetValue>): Option<int>
  {
    if v.Some? && v.value.IntV? then Some(v.value.i) else None
  }

  // ---- the facet-set checks of _parse_facets ----

  /** The parse errors of _parse_facets, one per message. */
  datatype SetError =
    | FacetsOnAnySimpleType | FacetsOnAnySimpleContent | NotApplicable | DifferentBaseTypes
    | NegativeLength | MinLengthAboveLength | LengthAndMinLength | MaxLengthBelowLength | LengthAndMaxLength
    | NegativeMinLength | MaxLengthBelowMinLength | MinLengthBelowParent | MinLengthAboveParentMax
    | NegativeMaxLength | MaxLengthBelowParentMin | MaxLengthAboveParent
    | BothMinBounds | MinInclusiveAboveMaxInclusive | MinInclusiveNotBelowMaxExclusive
    | MinExclusiveNotBelowMaxInclusive | MinExclusiveAboveMaxExclusive | BothMaxBounds
    | TotalBelowFraction | TotalAboveParent | TimezoneChanged
  {
    predicate IsLength()
    {
      NegativeLength? || MinLengthAboveLength? || LengthAndMinLength? || MaxLengthBelowLength? || LengthAndMaxLength?
      || NegativeMinLength? || MaxLengthBelowMinLength? || MinLengthBelowParent? || MinLengthAboveParentMax?
      || NegativeMaxLength? || MaxLengthBelowParentMin? || MaxLengthAboveParent?
    }
    predicate IsRange()
    {
      BothMinBounds? || MinInclusiveAboveMaxInclusive? || MinInclusiveNotBelowMaxExclusive?
      || MinExclusiveNotBelowMaxInclusive? || MinExclusiveAboveMaxExclusive? || BothMaxBounds?
    }
    predicate IsDigits() { TotalBelowFraction? || TotalAboveParent? }
  }

  /**
   * The errors a run of checks reports, in order, and whether it stopped on a TypeError that
   * escapes _parse_facets (comparing None or values of different types).
   */
  datatype Checks = Checks(errors: seq<SetError>, escaped: bool)

  const Pass := Checks([], false)

  /** One check: a TypeError, the error, or nothing. */
  function Test(c: Option<bool>, e: SetError): Checks
  {
    if c.None? then Checks([], true) else if c.value then Checks([e], false) else Pass
  }

  /** An if/elif pair: the second check runs only when the first one does not fire. */
  function Elif(c: Option<bool>, e: SetError, rest: Checks): Checks
  {
    if c.None? then Checks([], true) else if c.value then Checks([e], false) else rest
  }

  /** Two checks in a row: the second only runs when the first did not raise. */
  function Then(a: Checks, b: Checks): (r: Checks)
    ensures r.escaped <==> a.escaped || b.escaped
    ensures r.errors == a.errors + (if a.escaped then [] else b.errors)
  {
    if a.escaped then a else Checks(a.errors + b.errors, b.escaped)
  }

  /** Running the first block of a ; b after the errors errs: a raise stops the chain. */
  lemma Advance(errs: seq<SetError>, a: Checks, b: Checks)
    ensures a.escaped ==> errs + Then(a, b).errors == errs + a.errors && Then(a, b).escaped
    ensures !a.escaped ==> errs + Then(a, b).errors == (errs + a.errors) + b.errors && Then(a, b).escaped == b.escaped
  {
  }

  /** `x is not None and <comparison>`: the comparison is only made when x is set. */
  function When(present: bool, c: Option<bool>): Option<bool>
  {
    if present then c else Some(false)
  }

  /** getattr(facets.get(k), 'value', None). */
  function ValueOf(facets: map<F.Kind, F.FacetInfo>, k: F.Kind): Option<F.FacetValue>
  {
    if k in facets then facets[k].value else None
  }

  /** The base type of a restriction, as far as the anySimpleType checks see it. */
  datatype BaseType = SimpleBase(name: string) | ComplexBase(simpleContent: Option<string>)

  /** Facets may not restrict xs:anySimpleType directly, as a type or as a simple content. */
  function DerivationChecks(facets: map<F.Kind, F.FacetInfo>, baseType: BaseType): (r: Checks)
    ensures r == Checks(Flag(facets != map[] && baseType == SimpleBase(XSD_ANY_SIMPLE_TYPE), FacetsOnAnySimpleType)
                        + Flag(facets != map[] && baseType == ComplexBase(Some(XSD_ANY_SIMPLE_TYPE)), FacetsOnAnySimpleContent), false)
  {
    if facets == map[] then Pass
    else match baseType
      case SimpleBase(name) => Test(Some(name == XSD_ANY_SIMPLE_TYPE), FacetsOnAnySimpleType)
      case ComplexBase(content) => Test(Some(content == Some(XSD_ANY_SIMPLE_TYPE)), FacetsOnAnySimpleContent)
  }

  /** The base types of the facets of a set. */
  function Owners(facets: map<F.Kind, F.FacetInfo>): set<nat>
  {
    set k | k in facets :: facets[k].owner
  }

  /** Every facet must be admitted by the type, and all of them must restrict the same base type. */
  function MembershipChecks(facets: map<F.Kind, F.FacetInfo>, admitted: set<F.Kind>): (r: Checks)
    ensures r == Checks(Flag(exists k :: k in facets && k !in admitted, NotApplicable)
                        + Flag(|Owners(facets)| > 1, DifferentBaseTypes), false)
  {
    Then(Test(Some(exists k :: k in facets && k !in admitted), NotApplicable),
         Test(Some(|Owners(facets)| > 1), DifferentBaseTypes))
  }

  /**
   * The "cannot specify both" rule: it applies when the base type has no facet of the other
   * kind, or when the base type's length facet restricts the same type as that facet.
   */
  predicate BothWithLength(other: Option<F.FacetInfo>, length: Option<F.FacetInfo>)
  {
    other.None? || (length.Some? && length.value.owner == other.value.owner)
  }

  /** The value of the base type's facet of a kind; None when it has none. */
  function BaseFacet(base: seq<F.TypeNode>, k: F.Kind): Option<F.FacetInfo>
    requires |base| > 0
  {
    F.GetFacet(base, 0, k)
  }

  /** [e] when b holds, else no error. */
  function Flag(b: bool, e: SetError): seq<SetError> { if b then [e] else [] }

  lemma SeqAssoc3(a: seq<SetError>, b: seq<SetError>, c: seq<SetError>, d: seq<SetError>)
    ensures a + (b + c + d) == a + b + c + d
  {
  }

  /** The errors of two flags, in order. */
  function Pair(c1: bool, e1: SetError, c2: bool, e2: SetError): (r: seq<SetError>)
    ensures forall e :: e in r <==> (c1 && e == e1) || (c2 && e == e2)
  {
    Flag(c1, e1) + Flag(c2, e2)
  }

  /** A base facet that is either absent or holds an integer. */
  predicate IntFacet(f: Option<F.FacetInfo>)
  {
    f.Some? ==> IntVal(f.value.value).Some?
  }

  /** The integer value of a base facet (0 when it holds none: only read under IntFacet). */
  function FacetInt(f: Option<F.FacetInfo>): int
  {
    if f.Some? && IntVal(f.value.value).Some? then IntVal(f.value.value).value else 0
  }

  /**
   * `facet.value > n` and `n > facet.value` for a base facet: a TypeError when the facet's
   * value is not an integer (a facet whose value failed to parse holds None).
   */
  function FacetAbove(f: F.FacetInfo, n: int): Option<bool>
  {
    var v := IntVal(f.value);
    if v.None? then None else Some(v.value > n)
  }

  function FacetBelow(f: F.FacetInfo, n: int): Option<bool>
  {
    var v := IntVal(f.value);
    if v.None? then None else Some(v.value < n)
  }

  /**
   * The length checks when a length facet is set: a negative length, a minLength above it, a
   * maxLength below it, and "both" declarations are errors. Nothing is compared with a base
   * facet's value here, so nothing raises.
   */
  function LengthSetErrors(len: int, mn: Option<int>, mx: Option<int>, lenB: Option<F.FacetInfo>,
                           mnB: Option<F.FacetInfo>, mxB: Option<F.FacetInfo>): (r: seq<SetError>)
    ensures NegativeLength in r <==> len < 0
    ensures MinLengthAboveLength in r <==> mn.Some? && mn.value > len
    ensures MaxLengthBelowLength in r <==> mx.Some? && mx.value < len
    ensures LengthAndMinLength in r <==> mn.Some? && BothWithLength(mnB, lenB)
    ensures LengthAndMaxLength in r <==> mx.Some? && BothWithLength(mxB, lenB)
  {
    Flag(len < 0, NegativeLength)
    + Pair(mn.Some? && mn.value > len, MinLengthAboveLength, mn.Some? && BothWithLength(mnB, lenB), LengthAndMinLength)
    + Pair(mx.Some? && mx.value < len, MaxLengthBelowLength, mx.Some? && BothWithLength(mxB, lenB), LengthAndMaxLength)
  }

  /**
   * The comparisons of a minLength or maxLength value n with the base type's minLength and
   * maxLength: they raise when a base facet holds no integer; otherwise n below the base
   * minLength and n above the base maxLength are errors.
   */
  function ParentLengthChecks(n: int, mnB: Option<F.FacetInfo>, mxB: Option<F.FacetInfo>, below: SetError, above: SetError): (r: Checks)
    ensures r.escaped <==> !(IntFacet(mnB) && IntFacet(mxB))
    ensures !r.escaped ==> r.errors == Flag(mnB.Some? && FacetInt(mnB) > n, below) + Flag(mxB.Some? && n > FacetInt(mxB), above)
  {
    Then(Test(if mnB.Some? then FacetAbove(mnB.value, n) else Some(false), below),
         Test(if mxB.Some? then FacetBelow(mxB.value, n) else Some(false), above))
  }

  /**
   * The minLength checks when no length facet is set: a negative minLength, a maxLength below
   * it, and a minLength outside the base type's minLength and maxLength are errors.
   */
  function MinLengthChecks(n: int, mx: Option<int>, mnB: Option<F.FacetInfo>, mxB: Option<F.FacetInfo>): (r: Checks)
    ensures r.escaped <==> !(IntFacet(mnB) && IntFacet(mxB))
    ensures !r.escaped ==>
              r.errors == Flag(n < 0, NegativeMinLength) + Flag(mx.Some? && mx.value < n, MaxLengthBelowMinLength)
                          + Flag(mnB.Some? && FacetInt(mnB) > n, MinLengthBelowParent)
                          + Flag(mxB.Some? && n > FacetInt(mxB), MinLengthAboveParentMax)
  {
    // The two checks on n itself compare integers and never raise.
    var p := ParentLengthChecks(n, mnB, mxB, MinLengthBelowParent, MinLengthAboveParentMax);
    var ab := Flag(n < 0, NegativeMinLength) + Flag(mx.Some? && mx.value < n, MaxLengthBelowMinLength);
    assert !p.escaped ==> ab + p.errors == ab + Flag(mnB.Some? && FacetInt(mnB) > n, MinLengthBelowParent)
                                             + Flag(mxB.Some? && n > FacetInt(mxB), MinLengthAboveParentMax);
    Checks(ab + p.errors, p.escaped)
  }

  /**
   * The maxLength checks when no length facet is set: a negative maxLength and one outside the
   * base type's minLength and maxLength are errors.
   */
  function MaxLengthChecks(n: int, mnB: Option<F.FacetInfo>, mxB: Option<F.FacetInfo>): (r: Checks)
    ensures r.escaped <==> !(IntFacet(mnB) && IntFacet(mxB))
    ensures !r.escaped ==>
              r.errors == Flag(n < 0, NegativeMaxLength) + Flag(mnB.Some? && FacetInt(mnB) > n, MaxLengthBelowParentMin)
                          + Flag(mxB.Some? && n > FacetInt(mxB), MaxLengthAboveParent)
  {
    Then(Test(Some(n < 0), NegativeMaxLength),
         ParentLengthChecks(n, mnB, mxB, MaxLengthBelowParentMin, MaxLengthAboveParent))
  }

  /**
   * The checks of the length-based facets: with length set, or else on minLength and maxLength.
   * Length facets hold integers (or None after an invalid value), so only IntV values count.
   */
  function LengthChecks(facets: map<F.Kind, F.FacetInfo>, base: seq<F.TypeNode>): Checks
    requires |base| > 0
  {
    var len := IntVal(ValueOf(facets, F.Length));
    var mn := IntVal(ValueOf(facets, F.MinLength));
    var mx := IntVal(ValueOf(facets, F.MaxLength));
    var mnB := BaseFacet(base, F.MinLength);
    var mxB := BaseFacet(base, F.MaxLength);
    if len.Some? then Checks(LengthSetErrors(len.value, mn, mx, BaseFacet(base, F.Length), mnB, mxB), false)
    else if mn.Some? || mx.Some? then
      Then(if mn.Some? then MinLengthChecks(mn.value, mx, mnB, mxB) else Pass,
           if mx.Some? then MaxLengthChecks(mx.value, mnB, mxB) else Pass)
    else Pass
  }

  /** Whether the comparison `a op b` could be made: one side is unset or they are comparable. */
  predicate Comparable(a: Option<F.FacetValue>, b: Option<F.FacetValue>)
  {
    a.None? || b.None? || Compare(a, b).Some?
  }

  /** The bound facets of a set, pairwise comparable wherever the checks compare them. */
  predicate BoundsComparable(facets: map<F.Kind, F.FacetInfo>)
  {
    var mi, me, xi, xe := ValueOf(facets, F.MinInclusive), ValueOf(facets, F.MinExclusive),
                          ValueOf(facets, F.MaxInclusive), ValueOf(facets, F.MaxExclusive);
    Comparable(mi, xi) && Comparable(mi, xe) && Comparable(me, xi) && Comparable(me, xe)
  }

  /**
   * The checks of the bound facets: the exclusive pairs and the consistency of the range. They
   * raise only on incomparable bounds; on comparable ones they report exactly these errors.
   */
  function RangeChecks(facets: map<F.Kind, F.FacetInfo>): (r: Checks)
    ensures r.escaped ==> !BoundsComparable(facets)
    ensures BoundsComparable(facets) ==>
              var mi, me, xi, xe := ValueOf(facets, F.MinInclusive), ValueOf(facets, F.MinExclusive),
                                    ValueOf(facets, F.MaxInclusive), ValueOf(facets, F.MaxExclusive);
              r == Checks((if mi.Some? then
                             Flag(me.Some?, BothMinBounds)
                             + (if xi.Some? && Compare(mi, xi) == Some(F.Above) then [MinInclusiveAboveMaxInclusive]
                                else Flag(xe.Some? && Compare(mi, xe) != Some(F.Below), MinInclusiveNotBelowMaxExclusive))
                           else if me.Some? then
                             (if xi.Some? && Compare(me, xi) != Some(F.Below) then [MinExclusiveNotBelowMaxInclusive]
                              else Flag(xe.Some? && Compare(me, xe) == Some(F.Above), MinExclusiveAboveMaxExclusive))
                           else [])
                          + Flag(xi.Some? && xe.Some?, BothMaxBounds), false)
  {
    var mi := ValueOf(facets, F.MinInclusive);
    var me := ValueOf(facets, F.MinExclusive);
    var xi := ValueOf(facets, F.MaxInclusive);
    var xe := ValueOf(facets, F.MaxExclusive);
    Then(if mi.Some? then
           Then(Test(Some(me.Some?), BothMinBounds),
                Elif(When(xi.Some?, Gt(mi, xi)), MinInclusiveAboveMaxInclusive,
                     Test(When(xe.Some?, Ge(mi, xe)), MinInclusiveNotBelowMaxExclusive)))
         else if me.Some? then
           Elif(When(xi.Some?, Ge(me, xi)), MinExclusiveNotBelowMaxInclusive,
                Test(When(xe.Some?, Gt(me, xe)), MinExclusiveAboveMaxExclusive))
         else Pass,
         Test(Some(xi.Some? && xe.Some?), BothMaxBounds))
  }

  /** The digits facets of a set, and the base totalDigits, hold integers. */
  predicate IntDigits(facets: map<F.Kind, F.FacetInfo>, base: seq<F.TypeNode>)
    requires |base| > 0
  {
    && (F.TotalDigits in facets ==> IntVal(facets[F.TotalDigits].value).Some?)
    && (F.FractionDigits in facets ==> IntVal(facets[F.FractionDigits].value).Some?)
    && IntFacet(BaseFacet(base, F.TotalDigits))
  }

  /** totalDigits may not be below fractionDigits nor above the base type's totalDigits. */
  function DigitsChecks(facets: map<F.Kind, F.FacetInfo>, base: seq<F.TypeNode>): (r: Checks)
    requires |base| > 0
    ensures F.TotalDigits !in facets ==> r == Pass
    ensures IntDigits(facets, base) && F.TotalDigits in facets ==>
              var td, tdB := IntVal(ValueOf(facets, F.TotalDigits)).value, BaseFacet(base, F.TotalDigits);
              r == Checks(Flag(F.FractionDigits in facets && td < IntVal(ValueOf(facets, F.FractionDigits)).value, TotalBelowFraction)
                          + Flag(tdB.Some? && FacetInt(tdB) < td, TotalAboveParent), false)
  {
    if F.TotalDigits in facets then
      var td := facets[F.TotalDigits].value;
      var tdB := BaseFacet(base, F.TotalDigits);
      Then(Test(When(F.FractionDigits in facets, Lt(td, if F.FractionDigits in facets then facets[F.FractionDigits].value else None)), TotalBelowFraction),
           Test(When(tdB.Some?, Lt(if tdB.Some? then tdB.value.value else None, td)), TotalAboveParent))
    else Pass
  }

  /** A base explicitTimezone of prohibited or required cannot be changed. */
  function TimezoneChecks(facets: map<F.Kind, F.FacetInfo>, base: seq<F.TypeNode>): (r: Checks)
    requires |base| > 0
    ensures var tzB := BaseFacet(base, F.ExplicitTimezone);
            r == Checks(Flag(F.ExplicitTimezone in facets && tzB.Some?
                             && (tzB.value.value == Some(F.TextV("prohibited")) || tzB.value.value == Some(F.TextV("required")))
                             && !F.FEq(facets[F.ExplicitTimezone].value, tzB.value.value), TimezoneChanged), false)
  {
    if F.ExplicitTimezone in facets then
      var tzB := BaseFacet(base, F.ExplicitTimezone);
      Test(Some(tzB.Some? && tzB.value.value in {Some(F.TextV("prohibited")), Some(F.TextV("required"))}
                && !F.FEq(facets[F.ExplicitTimezone].value, tzB.value.value)), TimezoneChanged)
    else Pass
  }

  /** _parse_facets: all the checks, in the order of the source. */
  function FacetSetChecks(facets: map<F.Kind, F.FacetInfo>, base: seq<F.TypeNode>, baseType: BaseType, admitted: set<F.Kind>): Checks
    requires |base| > 0
  {
    Then(DerivationChecks(facets, baseType),
    Then(MembershipChecks(facets, admitted),
    Then(LengthChecks(facets, base),
    Then(RangeChecks(facets),
    Then(DigitsChecks(facets, base), TimezoneChecks(facets, base))))))
  }

  /**
   * The chain of FacetSetChecks run one check at a time, the first two never raising: the
   * errors collected up to the first check that raises, or all of them.
   */
  lemma ChainOutcome(cD: Checks, cM: Checks, cL: Checks, cR: Checks, cG: Checks, cT: Checks)
    requires !cD.escaped && !cM.escaped
    ensures var all := Then(cD, Then(cM, Then(cL, Then(cR, Then(cG, cT)))));
            var e1 := cD.errors + cM.errors + cL.errors;
            && (cL.escaped ==> all.escaped && all.errors == e1)
            && (!cL.escaped && cR.escaped ==> all.escaped && all.errors == e1 + cR.errors)
            && (!cL.escaped && !cR.escaped && cG.escaped ==> all.escaped && all.errors == e1 + cR.errors + cG.errors)
            && (!cL.escaped && !cR.escaped && !cG.escaped ==>
                  all.escaped == cT.escaped && all.errors == e1 + cR.errors + cG.errors + cT.errors)
  {
    var r3 := Then(cG, cT);
    var r2 := Then(cR, r3);
    var r1 := Then(cL, r2);
    assert cD.errors + (cM.errors + r1.errors) == cD.errors + cM.errors + r1.errors;
    if !cL.escaped {
      assert cD.errors + cM.errors + (cL.errors + r2.errors) == cD.errors + cM.errors + cL.errors + r2.errors;
      if !cR.escaped {
        assert cD.errors + cM.errors + cL.errors + (cR.errors + r3.errors)
               == cD.errors + cM.errors + cL.errors + cR.errors + r3.errors;
      }
    }
  }

  /** The checks of the facet set run in order, up to the first one that raises. */
  method RunFacetChecks(fs: map<F.Kind, F.FacetInfo>, base: seq<F.TypeNode>, baseType: BaseType, admitted: set<F.Kind>)
    returns (found: seq<SetError>, escaped: bool)
    requires |base| > 0
    ensures var c := FacetSetChecks(fs, base, baseType, admitted);
            found == c.errors && escaped == c.escaped
  {
    var cD, cM := DerivationChecks(fs, baseType), MembershipChecks(fs, admitted);
    var cL, cR, cG, cT := LengthChecks(fs, base), RangeChecks(fs), DigitsChecks(fs, base), TimezoneChecks(fs, base);
    assert FacetSetChecks(fs, base, baseType, admitted) == Then(cD, Then(cM, Then(cL, Then(cR, Then(cG, cT)))));
    ChainOutcome(cD, cM, cL, cR, cG, cT);
    found := cD.errors + cM.errors + cL.errors;
    if cL.escaped {
      return found, true;
    }
    found := found + cR.errors;
    if cR.escaped {
      return found, true;
    }
    found := found + cG.errors;
    if cG.escaped {
      return found, true;
    }
    found := found + cT.errors;
    escaped := cT.escaped;
  }

  /** The min_length and max_length a facet set gives its type: both equal length when it is set. */
  function LengthsOf(facets: map<F.Kind, F.FacetInfo>): (Option<int>, Option<int>)
  {
    var len := IntVal(ValueOf(facets, F.Length));
    if len.Some? then (len, len) else (IntVal(ValueOf(facets, F.MinLength)), IntVal(ValueOf(facets, F.MaxLength)))
  }

  /** The facet values _parse_facets compares are of types it can compare. */
  predicate WellTyped(facets: map<F.Kind, F.FacetInfo>, base: seq<F.TypeNode>)
    requires |base| > 0
  {
    && IntFacet(BaseFacet(base, F.MinLength)) && IntFacet(BaseFacet(base, F.MaxLength))
    && BoundsComparable(facets) && IntDigits(facets, base)
  }

  /** On comparable values _parse_facets never raises, and its errors are those of its blocks in order. */
  lemma FacetSetErrors(facets: map<F.Kind, F.FacetInfo>, base: seq<F.TypeNode>, baseType: BaseType, admitted: set<F.Kind>)
    requires |base| > 0 && WellTyped(facets, base)
    ensures var r := FacetSetChecks(facets, base, baseType, admitted);
            !r.escaped
            && r.errors == DerivationChecks(facets, baseType).errors + (MembershipChecks(facets, admitted).errors
                           + (LengthChecks(facets, base).errors + (RangeChecks(facets).errors
                           + (DigitsChecks(facets, base).errors + TimezoneChecks(facets, base).errors))))
  {
    var mn, mx := IntVal(ValueOf(facets, F.MinLength)), IntVal(ValueOf(facets, F.MaxLength));
    var mnB, mxB := BaseFacet(base, F.MinLength), BaseFacet(base, F.MaxLength);
    assert mn.Some? ==> !MinLengthChecks(mn.value, mx, mnB, mxB).escaped;
    assert mx.Some? ==> !MaxLengthChecks(mx.value, mnB, mxB).escaped;
    assert F.TotalDigits in facets ==> !DigitsChecks(facets, base).escaped;
  }

  /**
   * Without length set: nothing raises when the base facets compared with hold integers, and
   * the errors are, in order, those of minLength and then those of maxLength.
   */
  lemma MinMaxLengthConsistency(facets: map<F.Kind, F.FacetInfo>, base: seq<F.TypeNode>)
    requires |base| > 0 && IntVal(ValueOf(facets, F.Length)).None?
    requires IntFacet(BaseFacet(base, F.MinLength)) && IntFacet(BaseFacet(base, F.MaxLength))
    ensures var r := LengthChecks(facets, base);
            var mn, mx := IntVal(ValueOf(facets, F.MinLength)), IntVal(ValueOf(facets, F.MaxLength));
            var mnB, mxB := BaseFacet(base, F.MinLength), BaseFacet(base, F.MaxLength);
            && !r.escaped
            && r.errors == Flag(mn.Some? && mn.value < 0, NegativeMinLength)
                           + Flag(mn.Some? && mx.Some? && mx.value < mn.value, MaxLengthBelowMinLength)
                           + Flag(mn.Some? && mnB.Some? && FacetInt(mnB) > mn.value, MinLengthBelowParent)
                           + Flag(mn.Some? && mxB.Some? && mn.value > FacetInt(mxB), MinLengthAboveParentMax)
                           + Flag(mx.Some? && mx.value < 0, NegativeMaxLength)
                           + Flag(mx.Some? && mnB.Some? && FacetInt(mnB) > mx.value, MaxLengthBelowParentMin)
                           + Flag(mx.Some? && mxB.Some? && mx.value > FacetInt(mxB), MaxLengthAboveParent)
  {
    var mn, mx := IntVal(ValueOf(facets, F.MinLength)), IntVal(ValueOf(facets, F.MaxLength));
    var mnB, mxB := BaseFacet(base, F.MinLength), BaseFacet(base, F.MaxLength);
    var a := if mn.Some? then MinLengthChecks(mn.value, mx, mnB, mxB) else Pass;
    var b := if mx.Some? then MaxLengthChecks(mx.value, mnB, mxB) else Pass;
    var ea := Flag(mn.Some? && mn.value < 0, NegativeMinLength)
              + Flag(mn.Some? && mx.Some? && mx.value < mn.value, MaxLengthBelowMinLength)
              + Flag(mn.Some? && mnB.Some? && FacetInt(mnB) > mn.value, MinLengthBelowParent)
              + Flag(mn.Some? && mxB.Some? && mn.value > FacetInt(mxB), MinLengthAboveParentMax);
    var eb := Flag(mx.Some? && mx.value < 0, NegativeMaxLength)
              + Flag(mx.Some? && mnB.Some? && FacetInt(mnB) > mx.value, MaxLengthBelowParentMin)
              + Flag(mx.Some? && mxB.Some? && mx.value > FacetInt(mxB), MaxLengthAboveParent);
    if mn.Some? {
      assert !a.escaped && a.errors == ea;
    } else {
      assert a == Pass && ea == [];
    }
    if mx.Some? {
      assert !b.escaped && b.errors == eb;
    } else {
      assert b == Pass && eb == [];
    }
    assert LengthChecks(facets, base) == Then(a, b);
    SeqAssoc3(ea, Flag(mx.Some? && mx.value < 0, NegativeMaxLength),
              Flag(mx.Some? && mnB.Some? && FacetInt(mnB) > mx.value, MaxLengthBelowParentMin),
              Flag(mx.Some? && mxB.Some? && mx.value > FacetInt(mxB), MaxLengthAboveParent));
  }

  /**
   * The bounds: minInclusive and minExclusive exclude each other, so do maxInclusive and
   * maxExclusive, and a lower bound above the upper one is reported once, first against
   * maxInclusive.
   */
  lemma BoundsConsistency(facets: map<F.Kind, F.FacetInfo>)
    requires BoundsComparable(facets)
    ensures var r := RangeChecks(facets);
            var mi, me, xi, xe := ValueOf(facets, F.MinInclusive), ValueOf(facets, F.MinExclusive),
                                  ValueOf(facets, F.MaxInclusive), ValueOf(facets, F.MaxExclusive);
            && (BothMinBounds in r.errors <==> mi.Some? && me.Some?)
            && (BothMaxBounds in r.errors <==> xi.Some? && xe.Some?)
            && (MinInclusiveAboveMaxInclusive in r.errors <==> mi.Some? && xi.Some? && Compare(mi, xi) == Some(F.Above))
            && (MinInclusiveNotBelowMaxExclusive in r.errors <==>
                  mi.Some? && xe.Some? && !(xi.Some? && Compare(mi, xi) == Some(F.Above)) && Compare(mi, xe) != Some(F.Below))
            && (MinExclusiveNotBelowMaxInclusive in r.errors <==> mi.None? && me.Some? && xi.Some? && Compare(me, xi) != Some(F.Below))
            && (MinExclusiveAboveMaxExclusive in r.errors <==>
                  mi.None? && me.Some? && xe.Some? && !(xi.Some? && Compare(me, xi) != Some(F.Below)) && Compare(me, xe) == Some(F.Above))
  {
    var mi, me, xi, xe := ValueOf(facets, F.MinInclusive), ValueOf(facets, F.MinExclusive),
                          ValueOf(facets, F.MaxInclusive), ValueOf(facets, F.MaxExclusive);
    BoundErrorsMembers(mi.Some?, me.Some?, xi.Some?, xe.Some?,
                       Compare(mi, xi) == Some(F.Above), Compare(mi, xe) != Some(F.Below),
                       Compare(me, xi) != Some(F.Below), Compare(me, xe) == Some(F.Above),
                       RangeChecks(facets).errors);
  }

  /**
   * The bound errors in terms of which bounds are set and how they compare: a1 and a2 compare
   * minInclusive with the two upper bounds, b1 and b2 minExclusive.
   */
  lemma BoundErrorsMembers(hasMi: bool, hasMe: bool, hasXi: bool, hasXe: bool,
                           a1: bool, a2: bool, b1: bool, b2: bool, errors: seq<SetError>)
    requires errors == (if hasMi then
                          Flag(hasMe, BothMinBounds)
                          + (if hasXi && a1 then [MinInclusiveAboveMaxInclusive]
                             else Flag(hasXe && a2, MinInclusiveNotBelowMaxExclusive))
                        else if hasMe then
                          (if hasXi && b1 then [MinExclusiveNotBelowMaxInclusive]
                           else Flag(hasXe && b2, MinExclusiveAboveMaxExclusive))
                        else [])
                       + Flag(hasXi && hasXe, BothMaxBounds)
    ensures BothMinBounds in errors <==> hasMi && hasMe
    ensures BothMaxBounds in errors <==> hasXi && hasXe
    ensures MinInclusiveAboveMaxInclusive in errors <==> hasMi && hasXi && a1
    ensures MinInclusiveNotBelowMaxExclusive in errors <==> hasMi && hasXe && !(hasXi && a1) && a2
    ensures MinExclusiveNotBelowMaxInclusive in errors <==> !hasMi && hasMe && hasXi && b1
    ensures MinExclusiveAboveMaxExclusive in errors <==> !hasMi && hasMe && hasXe && !(hasXi && b1) && b2
  {
  }

  /** totalDigits below fractionDigits, or above the base type's totalDigits, is an error. */
  lemma DigitsConsistency(facets: map<F.Kind, F.FacetInfo>, base: seq<F.TypeNode>)
    requires |base| > 0 && IntDigits(facets, base)
    ensures var r := DigitsChecks(facets, base);
            var tdB := BaseFacet(base, F.TotalDigits);
            && (TotalBelowFraction in r.errors <==>
                  F.TotalDigits in facets && F.FractionDigits in facets
                  && IntVal(facets[F.TotalDigits].value).value < IntVal(facets[F.FractionDigits].value).value)
            && (TotalAboveParent in r.errors <==>
                  F.TotalDigits in facets && tdB.Some? && FacetInt(tdB) < IntVal(facets[F.TotalDigits].value).value)
  {
  }

  // ---- min_value and max_value ----

  /**
   * min_value from the minInclusive and minExclusive values get_facet finds: the one that is
   * set, or, with both, the exclusive one when inclusive <= exclusive and the inclusive one
   * otherwise; Err where Python cannot compare the two.
   */
  function MinOf(mi: Option<F.FacetValue>, me: Option<F.FacetValue>): (r: Result<Option<F.FacetValue>, ()>)
    ensures me.None? ==> r == Ok(mi)
    ensures mi.None? ==> r == Ok(me)
    ensures mi.Some? && me.Some? ==> (r.Err? <==> Compare(mi, me).None?)
    ensures r.Ok? ==> r.value == mi || r.value == me
  {
    if me.None? then Ok(mi)
    else if mi.None? then Ok(me)
    else
      var c := Compare(mi, me);
      if c.None? then Err(())
      else if c.value != F.Above then Ok(me)
      else Ok(mi)
  }

  /** max_value, symmetrically: the exclusive one when inclusive >= exclusive. */
  function MaxOf(xi: Option<F.FacetValue>, xe: Option<F.FacetValue>): (r: Result<Option<F.FacetValue>, ()>)
    ensures xe.None? ==> r == Ok(xi)
    ensures xi.None? ==> r == Ok(xe)
    ensures xi.Some? && xe.Some? ==> (r.Err? <==> Compare(xi, xe).None?)
    ensures r.Ok? ==> r.value == xi || r.value == xe
  {
    if xe.None? then Ok(xi)
    else if xi.None? then Ok(xe)
    else
      var c := Compare(xi, xe);
      if c.None? then Err(())
      else if c.value != F.Below then Ok(xe)
      else Ok(xi)
  }

  /** min_value and max_value of the i-th type of a chain, through get_facet. */
  function MinValue(chain: seq<F.TypeNode>): Result<Option<F.FacetValue>, ()>
    requires |chain| > 0
  {
    MinOf(FacetValue(F.GetFacet(chain, 0, F.MinInclusive)), FacetValue(F.GetFacet(chain, 0, F.MinExclusive)))
  }

  function MaxValue(chain: seq<F.TypeNode>): Result<Option<F.FacetValue>, ()>
    requires |chain| > 0
  {
    MaxOf(FacetValue(F.GetFacet(chain, 0, F.MaxInclusive)), FacetValue(F.GetFacet(chain, 0, F.MaxExclusive)))
  }

  /** getattr(facet, 'value', None). */
  function FacetValue(f: Option<F.FacetInfo>): Option<F.FacetValue>
  {
    if f.Some? then f.value.value else None
  }

  /**
   * min_value picks the tighter lower bound: a value the chosen bound accepts is accepted by
   * the other one too.
   */
  lemma MinOfTightest(mi: F.Value, me: F.Value, v: F.Value)
    requires MinOf(Some(F.ValV(mi)), Some(F.ValV(me))).Ok?
    ensures var r := MinOf(Some(F.ValV(mi)), Some(F.ValV(me))).value;
            && (r == Some(F.ValV(me)) && F.BoundValidator(F.MinExclusive, Some(me), v) == F.Valid ==>
                  F.BoundValidator(F.MinInclusive, Some(mi), v) == F.Valid)
            && (r != Some(F.ValV(me)) && F.BoundValidator(F.MinInclusive, Some(mi), v) == F.Valid ==>
                  F.BoundValidator(F.MinExclusive, Some(me), v) == F.Valid)
  {
    var c := F.Cmp(mi, Some(me));
    F.CmpFlip(mi, me);
    F.CmpFlip(v, me);
    F.CmpFlip(v, mi);
    if c != Some(F.Above) {
      if F.Cmp(v, Some(me)) == Some(F.Above) {
        F.CmpTrans(mi, me, v);
      }
    } else {
      if F.Cmp(v, Some(mi)).Some? && F.Cmp(v, Some(mi)) != Some(F.Below) {
        F.CmpTrans(me, mi, v);
      }
    }
  }

  /**
   * max_value picks the tighter upper bound: a value the chosen bound accepts is accepted by
   * the other one too.
   */
  lemma MaxOfTightest(xi: F.Value, xe: F.Value, v: F.Value)
    requires MaxOf(Some(F.ValV(xi)), Some(F.ValV(xe))).Ok?
    ensures var r := MaxOf(Some(F.ValV(xi)), Some(F.ValV(xe))).value;
            && (r == Some(F.ValV(xe)) && F.BoundValidator(F.MaxExclusive, Some(xe), v) == F.Valid ==>
                  F.BoundValidator(F.MaxInclusive, Some(xi), v) == F.Valid)
            && (r != Some(F.ValV(xe)) && F.BoundValidator(F.MaxInclusive, Some(xi), v) == F.Valid ==>
                  F.BoundValidator(F.MaxExclusive, Some(xe), v) == F.Valid)
  {
    var c := F.Cmp(xi, Some(xe));
    F.CmpFlip(xi, xe);
    F.CmpFlip(v, xe);
    F.CmpFlip(v, xi);
    if c != Some(F.Below) {
      if F.Cmp(v, Some(xe)) == Some(F.Below) {
        F.CmpTrans(v, xe, xi);
      }
    } else {
      if F.Cmp(v, Some(xi)).Some? && F.Cmp(v, Some(xi)) != Some(F.Above) {
        F.CmpTrans(v, xi, xe);
      }
    }
  }

  // ---- normalize ----

  /** What normalize is given: a string, or any other object (bytes decoding is not modelled). */
  datatype Input = Text(s: string) | NotText

  /** The replace rule: every whitespace character becomes a space. */
  function ReplaceSpaces(s: string): (r: string)
    ensures |r| == |s|
    ensures forall i :: 0 <= i < |s| ==> r[i] == (if Strs.IsSpace(s[i]) then ' ' else s[i])
  {
    if s == [] then [] else [if Strs.IsSpace(s[0]) then ' ' else s[0]] + ReplaceSpaces(s[1..])
  }

  /** Every whitespace character of s is a space, and no two spaces are adjacent. */
  predicate Squeezed(s: string)
  {
    && (forall i :: 0 <= i < |s| ==> Strs.IsSpace(s[i]) ==> s[i] == ' ')
    && (forall i :: 0 <= i < |s| - 1 ==> s[i] == ' ' ==> s[i + 1] != ' ')
  }

  /** The collapsed form: squeezed, and neither starting nor ending with a space. */
  predicate Collapsed(s: string)
  {
    Squeezed(s) && (s == [] || (s[0] != ' ' && s[|s| - 1] != ' '))
  }

  /** The substitution of the regex \s+ by one space: each run of whitespace becomes one space. */
  function SqueezeSpaces(s: string): (r: string)
    ensures Squeezed(r)
    ensures r != [] ==> s != [] && (r[0] == ' ' <==> Strs.IsSpace(s[0]))
    decreases |s|
  {
    if s == [] then []
    else if Strs.IsSpace(s[0]) then [' '] + SqueezeSpaces(Strs.LStrip(s[1..]))
    else [s[0]] + SqueezeSpaces(s[1..])
  }

  /** A slice of a squeezed string is squeezed. */
  lemma SqueezedSlice(s: string, i: nat, j: nat)
    requires Squeezed(s) && i <= j <= |s|
    ensures Squeezed(s[i..j])
  {
    var t := s[i..j];
    forall k | 0 <= k < |t| - 1 && t[k] == ' ' ensures t[k + 1] != ' ' {
      assert s[i + k] == ' ';
    }
  }

  /** Stripping a squeezed string leaves it collapsed. */
  lemma StripSqueezed(q: string)
    requires Squeezed(q)
    ensures Collapsed(Strs.Strip(q))
  {
    var l := Strs.LStrip(q);
    var r := Strs.RStrip(l);
    assert Squeezed(l) by {
      SqueezedSlice(q, |q| - |l|, |q|);
      assert l == q[|q| - |l|..];
    }
    assert Squeezed(r) by {
      SqueezedSlice(l, 0, |r|);
      assert r == l[..|r|];
    }
    assert r != [] ==> r[0] != ' ' && r[|r| - 1] != ' ' by {
      assert Strs.IsSpace(' ');
      assert r != [] ==> r[0] == l[0];
    }
  }

  /** The collapse rule: runs of whitespace become one space, then the ends are stripped. */
  function Collapse(s: string): (r: string)
    ensures Collapsed(r)
  {
    StripSqueezed(SqueezeSpaces(s));
    Strs.Strip(SqueezeSpaces(s))
  }

  /** A squeezed string is left alone by the substitution. */
  lemma {:induction false} SqueezeSqueezed(s: string)
    requires Squeezed(s)
    ensures SqueezeSpaces(s) == s
    decreases |s|
  {
    if s != [] {
      SqueezedSlice(s, 1, |s|);
      SqueezeSqueezed(s[1..]);
      if Strs.IsSpace(s[0]) {
        assert s[1..] == [] || !Strs.IsSpace(s[1]);
        assert Strs.LStrip(s[1..]) == s[1..];
      }
      assert s == [s[0]] + s[1..];
    }
  }

  /** Collapsing a collapsed string changes nothing, so collapse is idempotent. */
  lemma CollapseIdempotent(s: string)
    ensures Collapse(Collapse(s)) == Collapse(s)
  {
    var c := Collapse(s);
    SqueezeSqueezed(c);
    assert c == [] || (!Strs.IsSpace(c[0]) && !Strs.IsSpace(c[|c| - 1]));
    assert Strs.LStrip(c) == c;
    assert Strs.RStrip(c) == c;
  }

  /**
   * normalize: a string is left alone, has its whitespace replaced by spaces, or is collapsed,
   * as white_space says; anything else is a value error. The result passes the whiteSpace
   * facet's own validator.
   */
  function Normalize(whiteSpace: Option<string>, x: Input): (r: Result<string, ()>)
    ensures r.Err? <==> x.NotText?
    ensures x.Text? && whiteSpace == Some("replace") ==>
              |r.value| == |x.s| && F.ReplaceValidator(F.Str(r.value)) == F.Valid
    ensures x.Text? && whiteSpace == Some("collapse") ==>
              Collapsed(r.value) && F.CollapseValidator(F.Str(r.value)) == F.Valid
    ensures x.Text? && whiteSpace != Some("replace") && whiteSpace != Some("collapse") ==> r == Ok(x.s)
  {
    if x.NotText? then Err(())
    else if whiteSpace == Some("replace") then
      var t := ReplaceSpaces(x.s);
      assert '\t' !in t && '\n' !in t by {
        forall i | 0 <= i < |t| ensures t[i] != '\t' && t[i] != '\n' {
          assert Strs.IsSpace('\t') && Strs.IsSpace('\n');
        }
      }
      Ok(t)
    else if whiteSpace == Some("collapse") then
      var t := Collapse(x.s);
      assert '\t' !in t && '\n' !in t && !F.HasDoubleSpace(t) by {
        forall i | 0 <= i < |t| ensures t[i] != '\t' && t[i] != '\n' {
          assert Strs.IsSpace('\t') && Strs.IsSpace('\n');
        }
      }
      Ok(t)
    else Ok(x.s)
  }

  /** Normalizing twice is normalizing once, whatever the whiteSpace value. */
  lemma NormalizeIdempotent(whiteSpace: Option<string>, s: string)
    ensures var once := Normalize(whiteSpace, Text(s)).value;
            Normalize(whiteSpace, Text(once)) == Ok(once)
  {
    if whiteSpace == Some("collapse") {
      CollapseIdempotent(s);
    } else if whiteSpace == Some("replace") {
      var t := ReplaceSpaces(s);
      assert ReplaceSpaces(t) == t;
    }
  }

  /** Replacing whitespace by spaces does not change the words. */
  lemma {:induction false} SplitReplaced(s: string, cur: string)
    requires Strs.NoSpace(cur)
    ensures Strs.SplitFrom(ReplaceSpaces(s), cur) == Strs.SplitFrom(s, cur)
    decreases |s|
  {
    if s != [] {
      var t := ReplaceSpaces(s);
      assert t[1..] == ReplaceSpaces(s[1..]);
      assert Strs.IsSpace(' ');
      if Strs.IsSpace(s[0]) {
        SplitReplaced(s[1..], []);
      } else {
        SplitReplaced(s[1..], cur + [s[0]]);
      }
    }
  }

  /** Leading whitespace before the first word is passed over. */
  lemma {:induction false} SplitLStripped(s: string)
    ensures Strs.SplitFrom(Strs.LStrip(s), []) == Strs.SplitFrom(s, [])
    decreases |s|
  {
    if s != [] && Strs.IsSpace(s[0]) {
      SplitLStripped(s[1..]);
    }
  }

  /** Squeezing the runs of whitespace does not change the words. */
  lemma {:induction false} SplitSqueezed(s: string, cur: string)
    requires Strs.NoSpace(cur)
    ensures Strs.SplitFrom(SqueezeSpaces(s), cur) == Strs.SplitFrom(s, cur)
    decreases |s|
  {
    if s != [] {
      var t := SqueezeSpaces(s);
      assert Strs.IsSpace(' ');
      if Strs.IsSpace(s[0]) {
        var l := Strs.LStrip(s[1..]);
        assert t[1..] == SqueezeSpaces(l);
        SplitSqueezed(l, []);
        SplitLStripped(s[1..]);
      } else {
        assert t[1..] == SqueezeSpaces(s[1..]);
        SplitSqueezed(s[1..], cur + [s[0]]);
      }
    }
  }

  /** Whitespace after the last word is passed over. */
  lemma {:induction false} SplitTrailing(u: string, w: string, cur: string)
    requires Strs.NoSpace(cur) && forall i :: 0 <= i < |w| ==> Strs.IsSpace(w[i])
    ensures Strs.SplitFrom(u + w, cur) == Strs.SplitFrom(u, cur)
    decreases |u|, |w|
  {
    if u == [] {
      if w != [] {
        assert ([] + w)[1..] == [] + w[1..];
        SplitTrailing([], w[1..], []);
        assert Strs.SplitFrom([] + w[1..], []) == [];
      }
      assert [] + w == w;
    } else {
      assert (u + w)[1..] == u[1..] + w;
      if Strs.IsSpace(u[0]) {
        SplitTrailing(u[1..], w, []);
      } else {
        SplitTrailing(u[1..], w, cur + [u[0]]);
      }
    }
  }

  /** Stripping trailing whitespace does not change the words. */
  lemma SplitRStripped(s: string)
    ensures Strs.SplitFrom(Strs.RStrip(s), []) == Strs.SplitFrom(s, [])
  {
    var r := Strs.RStrip(s);
    assert s == r + s[|r|..];
    SplitTrailing(r, s[|r|..], []);
  }

  /**
   * Normalizing does not change the whitespace-separated words of a string, whatever the
   * whiteSpace value: a list splits its value into the same tokens before and after.
   */
  lemma NormalizeKeepsWords(whiteSpace: Option<string>, s: string)
    ensures Strs.Words(Normalize(whiteSpace, Text(s)).value) == Strs.Words(s)
  {
    if whiteSpace == Some("replace") {
      SplitReplaced(s, []);
    } else if whiteSpace == Some("collapse") {
      var q := SqueezeSpaces(s);
      SplitSqueezed(s, []);
      SplitLStripped(q);
      SplitRStripped(Strs.LStrip(q));
    }
  }

  // ---- is_empty ----

  /** is_empty: max_length is 0, or there is an enumeration and each of its values is ''. */
  predicate IsEmpty(maxLength: Option<int>, enumeration: Option<seq<F.Value>>)
  {
    maxLength == Some(0) || (enumeration.Some? && forall v :: v in enumeration.value ==> v == F.Str(""))
  }

  /**
   * A type is_empty reports admits only empty values: one that its maxLength facet and its
   * enumeration accept has length 0.
   */
  lemma EmptyTypeAdmitsOnlyEmpty(maxLength: Option<int>, enumeration: Option<seq<F.Value>>, v: F.Value)
    requires IsEmpty(maxLength, enumeration)
    requires maxLength.Some? ==> F.LengthValidator(F.MaxLength, maxLength.value, v) == F.Valid
    requires enumeration.Some? ==> v in enumeration.value
    ensures F.Len(v) == Some(0)
  {
  }

  // ---- the facets attribute ----

  /** An entry of a type's validators list. */
  datatype Check = FacetCheck(kind: F.Kind) | EnumerationCheck | CallbackCheck | AssertionCheck(index: nat)

  /**
   * The facets dictionary set on a type: the facets of this model by kind, whether it holds
   * an enumeration and a pattern facet, how many assertion facets it holds, and whether its
   * None key holds a validator function.
   */
  datatype FacetsArg = FacetsArg(facets: map<F.Kind, F.FacetInfo>, enumeration: bool, pattern: bool,
                                 assertions: nat, callback: bool)
  {
    /** The dictionary is not empty. */
    predicate NonEmpty() { facets != map[] || enumeration || pattern || assertions > 0 || callback }
  }

  /**
   * The validators a facets dictionary gives: its facets but whiteSpace and pattern, or only
   * the function under the None key, and in both cases its assertions.
   */
  function ValidatorsOf(arg: FacetsArg): (r: set<Check>)
    ensures CallbackCheck in r <==> arg.callback
    ensures forall k :: FacetCheck(k) in r <==> !arg.callback && k in arg.facets && k != F.WhiteSpace
    ensures EnumerationCheck in r <==> !arg.callback && arg.enumeration
    ensures forall i: nat :: AssertionCheck(i) in r <==> i < arg.assertions
  {
    var asserts := set i | 0 <= i < arg.assertions :: AssertionCheck(i);
    assert forall i: nat :: AssertionCheck(i) in asserts <==> i < arg.assertions;
    if arg.callback then {CallbackCheck} + asserts
    else (set k | k in arg.facets && k != F.WhiteSpace :: FacetCheck(k))
         + (if arg.enumeration then {EnumerationCheck} else {}) + asserts
  }

  /** No pattern facet matches the empty string (each pattern is given by whether it does). */
  predicate NoneMatchEmpty(patterns: seq<bool>)
  {
    forall p :: p in patterns ==> !p
  }

  /** The value of a whiteSpace facet, when it holds a keyword. */
  function WhiteSpaceOf(f: Option<F.FacetInfo>): Option<string>
  {
    if f.Some? && f.value.value.Some? && f.value.value.value.TextV? then Some(f.value.value.value.s) else None
  }

  /**
   * A simple type as its facets attribute shapes it: min_length and max_length, white_space,
   * the pattern facets (each: whether it matches ''), allow_empty, the validators list, and
   * the parse errors collected.
   */
  class SimpleType {
    const builtin: bool
    var facets: map<F.Kind, F.FacetInfo>
    var minLength: Option<int>
    var maxLength: Option<int>
    var whiteSpace: Option<string>
    var patterns: Option<seq<bool>>
    var allowEmpty: bool
    var validators: set<Check>
    var errors: seq<SetError>

    /** A type with a positive or negative min_length never admits the empty value. */
    predicate Valid()
      reads this
    {
      minLength.Some? && minLength.value != 0 ==> !allowEmpty
    }

    constructor(builtin: bool)
      ensures this.builtin == builtin && Valid()
      ensures facets == map[] && minLength.None? && maxLength.None? && whiteSpace.None? && patterns.None?
      ensures allowEmpty && validators == {} && errors == []
    {
      this.builtin := builtin;
      facets := map[];
      minLength, maxLength := None, None;
      whiteSpace, patterns := None, None;
      allowEmpty := true;
      validators := {};
      errors := [];
    }

    /**
     * _parse_facets: the checks of the facet set in order, each error appended; a TypeError
     * stops them and leaves min_length and max_length as they were, otherwise these take the
     * values of the facet set.
     */
    method ParseFacets(fs: map<F.Kind, F.FacetInfo>, base: seq<F.TypeNode>, baseType: BaseType, admitted: set<F.Kind>)
      returns (escaped: bool)
      requires |base| > 0
      modifies this
      ensures var c := FacetSetChecks(fs, base, baseType, admitted);
              errors == old(errors) + c.errors && escaped == c.escaped
      ensures escaped ==> minLength == old(minLength) && maxLength == old(maxLength)
      ensures !escaped ==> (minLength, maxLength) == LengthsOf(fs)
      ensures facets == old(facets) && whiteSpace == old(whiteSpace) && patterns == old(patterns)
      ensures allowEmpty == old(allowEmpty) && validators == old(validators)
    {
      var found;
      found, escaped := RunFacetChecks(fs, base, baseType, admitted);
      errors := errors + found;
      if escaped {
        return;
      }
      minLength, maxLength := LengthsOf(fs).0, LengthsOf(fs).1;
    }

    /**
     * The part of setting the facets attribute after the parse: the rules for allow_empty,
     * white_space from the whiteSpace facet found, the pattern facets found, and the
     * validators when the dictionary gives some.
     */
    method ApplyFacets(arg: FacetsArg, whiteSpaceFacet: Option<F.FacetInfo>, patternFacet: Option<seq<bool>>,
                       enumeration: Option<seq<F.Value>>)
      modifies this
      ensures allowEmpty == (old(allowEmpty) && !(minLength.Some? && minLength.value != 0)
                             && !(patternFacet.Some? && NoneMatchEmpty(patternFacet.value))
                             && !(enumeration.Some? && F.Str("") !in enumeration.value))
      ensures whiteSpace == (if WhiteSpaceOf(whiteSpaceFacet).Some? then WhiteSpaceOf(whiteSpaceFacet) else old(whiteSpace))
      ensures patterns == (if patternFacet.Some? then patternFacet else old(patterns))
      ensures validators == (if arg.NonEmpty() && ValidatorsOf(arg) != {} then ValidatorsOf(arg) else old(validators))
      ensures facets == old(facets) && minLength == old(minLength) && maxLength == old(maxLength) && errors == old(errors)
    {
      var keepEmpty := !(minLength.Some? && minLength.value != 0)
                       && !(patternFacet.Some? && NoneMatchEmpty(patternFacet.value))
                       && !(enumeration.Some? && F.Str("") !in enumeration.value);
      var ws := WhiteSpaceOf(whiteSpaceFacet);
      var useValidators := arg.NonEmpty() && ValidatorsOf(arg) != {};
      allowEmpty, whiteSpace, patterns, validators :=
        allowEmpty && keepEmpty,
        if ws.Some? then ws else whiteSpace,
        if patternFacet.Some? then patternFacet else patterns,
        if useValidators then ValidatorsOf(arg) else validators;
    }

    /**
     * Setting the facets attribute: the facets are parsed (not for a built-in type), then
     * allow_empty, white_space, the pattern facets and the validators follow from what
     * get_facet finds. A TypeError out of the parse stops the rest. whiteSpaceFacet,
     * patternFacet and enumeration are what get_facet finds for the three tags on the type
     * with its new facets.
     */
    method SetFacets(arg: FacetsArg, base: seq<F.TypeNode>, baseType: BaseType, admitted: set<F.Kind>,
                     whiteSpaceFacet: Option<F.FacetInfo>, patternFacet: Option<seq<bool>>,
                     enumeration: Option<seq<F.Value>>)
      returns (escaped: bool)
      requires |base| > 0 && Valid()
      modifies this
      ensures Valid() && facets == arg.facets
      ensures builtin ==> !escaped && errors == old(errors)
                          && minLength == old(minLength) && maxLength == old(maxLength)
      ensures !builtin ==> var c := FacetSetChecks(arg.facets, base, baseType, admitted);
                           escaped == c.escaped && errors == old(errors) + c.errors
                           && (minLength, maxLength) == (if escaped then (old(minLength), old(maxLength)) else LengthsOf(arg.facets))
      ensures escaped ==> allowEmpty == old(allowEmpty) && whiteSpace == old(whiteSpace)
                          && patterns == old(patterns) && validators == old(validators)
      ensures !escaped ==>
                && allowEmpty == (old(allowEmpty) && !(minLength.Some? && minLength.value != 0)
                                  && !(patternFacet.Some? && NoneMatchEmpty(patternFacet.value))
                                  && !(enumeration.Some? && F.Str("") !in enumeration.value))
                && whiteSpace == (if WhiteSpaceOf(whiteSpaceFacet).Some? then WhiteSpaceOf(whiteSpaceFacet) else old(whiteSpace))
                && patterns == (if patternFacet.Some? then patternFacet else old(patterns))
                && validators == (if arg.NonEmpty() && ValidatorsOf(arg) != {} then ValidatorsOf(arg) else old(validators))
    {
      facets := arg.facets;
      escaped := false;
      if !builtin {
        escaped := ParseFacets(arg.facets, base, baseType, admitted);
        if escaped {
          return;
        }
      }
      ApplyFacets(arg, whiteSpaceFacet, patternFacet, enumeration);
    }
  }
}
