// The constraining facets of restricted simple types: how a facet element is parsed against
// the facets of its base type (the chain of base types is walked for a base facet of the same
// kind), and which values each facet accepts. Parse errors are collected, as a schema built in
// lax mode does; the strict and skip policies of parse_error are modelled in XsdBase.
module Facets {
  import opened Wrappers
  import Strs

  /** The facets of this module, by tag. */
  datatype Kind = WhiteSpace | Length | MinLength | MaxLength
                | MinInclusive | MinExclusive | MaxInclusive | MaxExclusive
                | TotalDigits | FractionDigits | ExplicitTimezone
  {
    predicate IsBound() { MinInclusive? || MinExclusive? || MaxInclusive? || MaxExclusive? }
    predicate IsLength() { Length? || MinLength? || MaxLength? }
  }

  /**
   * The values the atomic codec hands to a facet. A decimal is an exact order key (scaled to a
   * common power of ten) with the digit counts count_digits reports; a date or time is an order
   * key and whether it carries a time zone; a list value is its item tokens.
   */
  datatype Value = Str(s: string)
                 | Items(tokens: seq<string>)
                 | Num(key: int, whole: nat, fraction: nat)
                 | Moment(key: int, tz: bool)
                 | Other(repr: string)

  datatype Order = Below | Same | Above

  /** Python's ordering of str: lexicographic on code points. */
  function StrCmp(s: string, t: string): Order
  {
    if s == [] then (if t == [] then Same else Below)
    else if t == [] then Above
    else if s[0] < t[0] then Below
    else if s[0] > t[0] then Above
    else StrCmp(s[1..], t[1..])
  }

  function IntCmp(a: int, b: int): Order
  {
    if a < b then Below else if a == b then Same else Above
  }

  /**
   * The comparison operators on two values; None where Python raises a TypeError (different
   * types, a naive and an aware date, a missing bound).
   */
  function Cmp(a: Value, b: Option<Value>): Option<Order>
  {
    if b.None? then None
    else match (a, b.value)
      case (Str(s), Str(t)) => Some(StrCmp(s, t))
      case (Num(x, _, _), Num(y, _, _)) => Some(IntCmp(x, y))
      case (Moment(x, p), Moment(y, q)) => if p == q then Some(IntCmp(x, y)) else None
      case _ => None
  }

  /** Python's == on two values: equal decimals compare equal whatever their digits. */
  predicate Eq(a: Value, b: Value)
  {
    match (a, b)
    case (Num(x, _, _), Num(y, _, _)) => x == y
    case (Moment(x, p), Moment(y, q)) => x == y && p == q
    case _ => a == b
  }

  function Flip(o: Order): Order
  {
    match o
    case Below => Above
    case Same => Same
    case Above => Below
  }

  /** Swapping the operands of a string comparison flips its outcome. */
  lemma {:induction false} StrCmpFlip(s: string, t: string)
    ensures StrCmp(t, s) == Flip(StrCmp(s, t))
    decreases |s|
  {
    if s != [] && t != [] && s[0] == t[0] {
      StrCmpFlip(s[1..], t[1..]);
    }
  }

  /** Two strings compare Same exactly when they are equal. */
  lemma {:induction false} StrCmpSame(s: string, t: string)
    ensures StrCmp(s, t) == Same <==> s == t
    decreases |s|
  {
    if s != [] && t != [] && s[0] == t[0] {
      StrCmpSame(s[1..], t[1..]);
      assert s == [s[0]] + s[1..] && t == [t[0]] + t[1..];
    }
  }

  /** Comparison and equality agree: two comparable values compare Same iff they are equal. */
  lemma CmpSameIsEq(a: Value, b: Value)
    requires Cmp(a, Some(b)).Some?
    ensures Cmp(a, Some(b)) == Some(Same) <==> Eq(a, b)
  {
    if a.Str? {
      StrCmpSame(a.s, b.s);
    }
  }

  /** Comparison is antisymmetric: swapping comparable operands flips the outcome. */
  lemma CmpFlip(a: Value, b: Value)
    ensures Cmp(b, Some(a)) == (if Cmp(a, Some(b)).None? then None else Some(Flip(Cmp(a, Some(b)).value)))
  {
    if a.Str? && b.Str? {
      StrCmpFlip(a.s, b.s);
    }
  }

  /** String comparison is transitive, and strictly so when one of the two steps is strict. */
  lemma {:induction false} StrCmpTrans(a: string, b: string, c: string)
    requires StrCmp(a, b) != Above && StrCmp(b, c) != Above
    ensures StrCmp(a, c) != Above
    ensures StrCmp(a, b) == Below || StrCmp(b, c) == Below ==> StrCmp(a, c) == Below
    decreases |a|
  {
    if a != [] && b != [] && c != [] && a[0] == b[0] && b[0] == c[0] {
      StrCmpTrans(a[1..], b[1..], c[1..]);
    }
  }

  /** Comparison is transitive on comparable values, and strictly so after one strict step. */
  lemma CmpTrans(a: Value, b: Value, c: Value)
    requires Cmp(a, Some(b)).Some? && Cmp(b, Some(c)).Some?
    requires Cmp(a, Some(b)) != Some(Above) && Cmp(b, Some(c)) != Some(Above)
    ensures Cmp(a, Some(c)).Some? && Cmp(a, Some(c)) != Some(Above)
    ensures Cmp(a, Some(b)) == Some(Below) || Cmp(b, Some(c)) == Some(Below) ==> Cmp(a, Some(c)) == Some(Below)
  {
    if a.Str? {
      StrCmpTrans(a.s, b.s, c.s);
    }
  }

  // ---- int() on an attribute value ----

  predicate IsDigit(c: char) { '0' <= c <= '9' }

  predicate AllDigits(s: string) { forall i :: 0 <= i < |s| ==> IsDigit(s[i]) }

  /** The number a run of decimal digits denotes. */
  function DigitsValue(s: string): nat
    requires AllDigits(s)
  {
    if s == [] then 0 else DigitsValue(s[..|s| - 1]) * 10 + (s[|s| - 1] as int - '0' as int)
  }

  /**
   * Python's int() on a string: surrounding whitespace, an optional sign and at least one
   * decimal digit; None where int() raises a ValueError.
   */
  function ParseInt(text: string): (r: Option<int>)
    ensures r.Some? ==> |Strs.Strip(text)| > 0
  {
    var t := Strs.Strip(text);
    if |t| > 1 && (t[0] == '-' || t[0] == '+') && AllDigits(t[1..]) then
      var m: int := DigitsValue(t[1..]);
      Some(if t[0] == '-' then -m else m)
    else if |t| > 0 && AllDigits(t) then Some(DigitsValue(t))
    else None
  }

  /** The decimal digits of n, as str() writes them. */
  function NatText(n: nat): (r: string)
    ensures |r| > 0 && AllDigits(r)
  {
    var d := ['0' + (n % 10) as char];
    if n < 10 then d else NatText(n / 10) + d
  }

  /** str() of an int. */
  function IntText(i: int): string
  {
    if i < 0 then "-" + NatText(-i) else NatText(i)
  }

  lemma {:induction false} NatTextValue(n: nat)
    ensures DigitsValue(NatText(n)) == n
    decreases n
  {
    var s := NatText(n);
    if n >= 10 {
      NatTextValue(n / 10);
      assert s[..|s| - 1] == NatText(n / 10);
    }
  }

  lemma StripDigits(s: string)
    requires |s| > 0 && !Strs.IsSpace(s[0]) && !Strs.IsSpace(s[|s| - 1])
    ensures Strs.Strip(s) == s
  {
  }

  /** int(str(i)) == i. */
  lemma ParseIntText(i: int)
    ensures ParseInt(IntText(i)) == Some(i)
  {
    var n: nat := if i < 0 then -i else i;
    NatTextValue(n);
    var t := IntText(i);
    StripDigits(t);
    if i < 0 {
      assert t[1..] == NatText(n);
    }
  }

  // ---- the base type chain ----

  /**
   * What a facet exposes to derived facets and to its simple type: its value, whether it is
   * fixed, and the identity of its base_type (the type the declaring restriction derives from).
   */
  datatype FacetInfo = FacetInfo(value: Option<FacetValue>, fixed: bool, owner: nat)

  /** The value a facet holds: an int, a keyword, or a value of the base type. */
  datatype FacetValue = IntV(i: int) | TextV(s: string) | ValV(v: Value)

  /** Python's == on two facet values, None included. */
  predicate FEq(a: Option<FacetValue>, b: Option<FacetValue>)
  {
    match (a, b)
    case (None, None) => true
    case (Some(ValV(x)), Some(ValV(y))) => Eq(x, y)
    case (Some(x), Some(y)) => x == y
    case _ => false
  }

  /**
   * A type of the base chain: its facets (None for a type without a facets attribute), whether
   * it is atomic, the name of its primitive type, and whether it derives from xs:decimal and
   * xs:integer.
   */
  datatype TypeNode = TypeNode(facets: Option<map<Kind, FacetInfo>>, atomic: bool, primitive: Option<string>,
                               fromDecimal: bool, fromInteger: bool)

  predicate Has(t: TypeNode, k: Kind) { t.facets.Some? && k in t.facets.value }

  /**
   * base_facet from the i-th type of the chain on: the facet of the first type that has one of
   * this kind; types without facets are passed over.
   */
  function FirstFacet(chain: seq<TypeNode>, i: nat, k: Kind): (r: Option<FacetInfo>)
    requires i <= |chain|
    ensures r.Some? <==> exists j :: i <= j < |chain| && Has(chain[j], k)
    ensures r.Some? ==> exists j :: i <= j < |chain| && Has(chain[j], k) && r.value == chain[j].facets.value[k]
                                  && forall l :: i <= l < j ==> !Has(chain[l], k)
    decreases |chain| - i
  {
    if i == |chain| then None
    else if Has(chain[i], k) then Some(chain[i].facets.value[k])
    else FirstFacet(chain, i + 1, k)
  }

  /**
   * get_facet on the i-th type: its own facet, else, for an atomic type with a base type, the
   * base type's get_facet; other types answer from their own facets only.
   */
  function GetFacet(chain: seq<TypeNode>, i: nat, k: Kind): (r: Option<FacetInfo>)
    requires i < |chain|
    ensures Has(chain[i], k) ==> r == Some(chain[i].facets.value[k])
    ensures r.Some? ==> exists j :: i <= j < |chain| && Has(chain[j], k) && r.value == chain[j].facets.value[k]
    decreases |chain| - i
  {
    if Has(chain[i], k) then Some(chain[i].facets.value[k])
    else if chain[i].atomic && i + 1 < |chain| then GetFacet(chain, i + 1, k)
    else None
  }

  /** Along a chain of atomic types get_facet and base_facet find the same facet. */
  lemma {:induction false} AtomicChainAgrees(chain: seq<TypeNode>, i: nat, k: Kind)
    requires i < |chain|
    requires forall j :: i <= j < |chain| ==> chain[j].atomic
    ensures GetFacet(chain, i, k) == FirstFacet(chain, i, k)
    decreases |chain| - i
  {
    if !Has(chain[i], k) && i + 1 < |chain| {
      AtomicChainAgrees(chain, i + 1, k);
    }
  }

  // ---- validators ----

  const XSD_QNAME := "{http://www.w3.org/2001/XMLSchema}QName"
  const XSD_NOTATION := "{http://www.w3.org/2001/XMLSchema}NOTATION"

  /** The _validator a facet installs; NoCheck is the default that accepts everything. */
  datatype Validator = NoCheck | ReplaceCheck | CollapseCheck
                     | LengthCheck(n: int) | MinLengthCheck(n: int) | MaxLengthCheck(n: int)
                     | TzRequired | TzProhibited

  /** Why a facet rejects a value. */
  datatype Reason = InvalidType | TabsOrNewlines | NotCollapsed
                  | LengthNot(n: int) | LengthBelow(n: int) | LengthAbove(n: int)
                  | TzNeeded | TzForbidden
                  | BelowMin | NotAboveMin | AboveMax | NotBelowMax | Incomparable
                  | TooManyDigits(n: int) | TooManyFractionDigits(n: int) | NoDigits

  /**
   * What calling a facet on a value does: nothing, a validation error, or an AttributeError
   * escaping (a time zone facet given a value that is not a date or time).
   */
  datatype Outcome = Valid | Invalid(reason: Reason) | AttributeFailure

  /** len(value); None where len() raises a TypeError. */
  function Len(v: Value): (r: Option<nat>)
    ensures r.Some? <==> v.Str? || v.Items?
  {
    match v
    case Str(s) => Some(|s|)
    case Items(ts) => Some(|ts|)
    case _ => None
  }

  predicate HasDoubleSpace(s: string) { exists i :: 0 <= i < |s| - 1 && s[i] == ' ' && s[i + 1] == ' ' }

  /** `x in value`: a character of a string, or an item of a list; None on other types. */
  function Contains(v: Value, x: string): Option<bool>
  {
    match v
    case Str(s) => Some(if |x| == 1 then x[0] in s else HasDoubleSpace(s))
    case Items(ts) => Some(x in ts)
    case _ => None
  }

  /** The replace whiteSpace validator: a string may hold no tab and no newline. */
  function ReplaceValidator(v: Value): (r: Outcome)
    ensures v.Str? ==> (r == Valid <==> '\t' !in v.s && '\n' !in v.s)
    ensures v.Items? ==> (r == Valid <==> "\t" !in v.tokens && "\n" !in v.tokens)
    ensures r != Valid ==> r == Invalid(if v.Str? || v.Items? then TabsOrNewlines else InvalidType)
  {
    var tab := Contains(v, "\t");
    var nl := Contains(v, "\n");
    if tab.None? || nl.None? then Invalid(InvalidType)
    else if tab.value || nl.value then Invalid(TabsOrNewlines)
    else Valid
  }

  /** The collapse whiteSpace validator: no tab, no newline and no two spaces in a row. */
  function CollapseValidator(v: Value): (r: Outcome)
    ensures v.Str? ==> (r == Valid <==> '\t' !in v.s && '\n' !in v.s && !HasDoubleSpace(v.s))
    ensures v.Items? ==> (r == Valid <==> "\t" !in v.tokens && "\n" !in v.tokens && "  " !in v.tokens)
    ensures r != Valid ==> r == Invalid(if v.Str? || v.Items? then NotCollapsed else InvalidType)
  {
    var tab := Contains(v, "\t");
    var nl := Contains(v, "\n");
    var sp := Contains(v, "  ");
    if tab.None? || nl.None? || sp.None? then Invalid(InvalidType)
    else if tab.value || nl.value || sp.value then Invalid(NotCollapsed)
    else Valid
  }

  /** A value the collapse validator accepts is accepted by the replace validator too. */
  lemma CollapseImpliesReplace(v: Value)
    ensures CollapseValidator(v) == Valid ==> ReplaceValidator(v) == Valid
  {
  }

  /** The length validators: the value's length against the facet value. */
  function LengthValidator(kind: Kind, n: int, v: Value): (r: Outcome)
    requires kind.IsLength()
    ensures Len(v).None? ==> r == Invalid(InvalidType)
    ensures Len(v).Some? && kind == Length ==> (r == Valid <==> Len(v).value == n)
    ensures Len(v).Some? && kind == MinLength ==> (r == Valid <==> Len(v).value >= n)
    ensures Len(v).Some? && kind == MaxLength ==> (r == Valid <==> Len(v).value <= n)
    ensures r != Valid ==> r.Invalid?
  {
    var len := Len(v);
    if len.None? then Invalid(InvalidType)
    else match kind
      case Length => if len.value != n then Invalid(LengthNot(n)) else Valid
      case MinLength => if len.value < n then Invalid(LengthBelow(n)) else Valid
      case MaxLength => if len.value > n then Invalid(LengthAbove(n)) else Valid
  }

  /** A length facet n accepts exactly what minLength n and maxLength n both accept. */
  lemma LengthIsMinAndMax(n: int, v: Value)
    ensures LengthValidator(Length, n, v) == Valid <==>
            LengthValidator(MinLength, n, v) == Valid && LengthValidator(MaxLength, n, v) == Valid
  {
  }

  /** The explicitTimezone validators read the value's tzinfo, which only dates and times have. */
  function TimezoneValidator(required: bool, v: Value): (r: Outcome)
    ensures !v.Moment? ==> r == AttributeFailure
    ensures v.Moment? ==> (r == Valid <==> v.tz == required)
    ensures v.Moment? && r != Valid ==> r == Invalid(if required then TzNeeded else TzForbidden)
  {
    if !v.Moment? then AttributeFailure
    else if required && !v.tz then Invalid(TzNeeded)
    else if !required && v.tz then Invalid(TzForbidden)
    else Valid
  }

  /** The installed validator, run by XsdFacet.__call__. */
  function RunValidator(val: Validator, v: Value): Outcome
  {
    match val
    case NoCheck => Valid
    case ReplaceCheck => ReplaceValidator(v)
    case CollapseCheck => CollapseValidator(v)
    case LengthCheck(n) => LengthValidator(Length, n, v)
    case MinLengthCheck(n) => LengthValidator(MinLength, n, v)
    case MaxLengthCheck(n) => LengthValidator(MaxLength, n, v)
    case TzRequired => TimezoneValidator(true, v)
    case TzProhibited => TimezoneValidator(false, v)
  }

  /**
   * The four bound facets: minInclusive rejects v < b, minExclusive v <= b, maxInclusive v > b
   * and maxExclusive v >= b; a comparison Python refuses is a validation error too.
   */
  function BoundValidator(kind: Kind, bound: Option<Value>, v: Value): (r: Outcome)
    requires kind.IsBound()
    ensures Cmp(v, bound).None? ==> r == Invalid(Incomparable)
    ensures Cmp(v, bound).Some? && kind == MinInclusive ==> (r == Valid <==> Cmp(v, bound) != Some(Below))
    ensures Cmp(v, bound).Some? && kind == MinExclusive ==> (r == Valid <==> Cmp(v, bound) == Some(Above))
    ensures Cmp(v, bound).Some? && kind == MaxInclusive ==> (r == Valid <==> Cmp(v, bound) != Some(Above))
    ensures Cmp(v, bound).Some? && kind == MaxExclusive ==> (r == Valid <==> Cmp(v, bound) == Some(Below))
    ensures r != Valid ==> r.Invalid?
  {
    var c := Cmp(v, bound);
    if c.None? then Invalid(Incomparable)
    else match kind
      case MinInclusive => if c.value == Below then Invalid(BelowMin) else Valid
      case MinExclusive => if c.value != Above then Invalid(NotAboveMin) else Valid
      case MaxInclusive => if c.value == Above then Invalid(AboveMax) else Valid
      case MaxExclusive => if c.value != Below then Invalid(NotBelowMax) else Valid
  }

  /**
   * On values comparable with the bound, minExclusive b accepts exactly what maxInclusive b
   * rejects, and minInclusive b exactly what maxExclusive b rejects.
   */
  lemma BoundDuality(b: Value, v: Value)
    requires Cmp(v, Some(b)).Some?
    ensures BoundValidator(MinExclusive, Some(b), v) == Valid <==> BoundValidator(MaxInclusive, Some(b), v) != Valid
    ensures BoundValidator(MinInclusive, Some(b), v) == Valid <==> BoundValidator(MaxExclusive, Some(b), v) != Valid
  {
  }

  /** A bound value b passes minInclusive v exactly when v passes maxInclusive b. */
  lemma InclusiveBoundsSwap(b: Value, v: Value)
    ensures BoundValidator(MinInclusive, Some(v), b) == Valid <==> BoundValidator(MaxInclusive, Some(b), v) == Valid
  {
    CmpFlip(v, b);
  }

  /** count_digits: the integer and fraction digit counts of a decimal; None where it raises. */
  function DigitsOf(v: Value): Option<(nat, nat)>
  {
    if v.Num? then Some((v.whole, v.fraction)) else None
  }

  /** totalDigits accepts a number of at most n digits; fractionDigits one of at most n fraction digits. */
  function DigitsValidator(kind: Kind, n: Option<FacetValue>, v: Value): (r: Outcome)
    requires kind == TotalDigits || kind == FractionDigits
    ensures DigitsOf(v).None? ==> r == Invalid(NoDigits)
    ensures DigitsOf(v).Some? && n.Some? && n.value.IntV? && kind == TotalDigits ==>
              (r == Valid <==> v.whole + v.fraction <= n.value.i)
    ensures DigitsOf(v).Some? && n.Some? && n.value.IntV? && kind == FractionDigits ==>
              (r == Valid <==> v.fraction <= n.value.i)
    ensures r != Valid ==> r.Invalid?
  {
    var d := DigitsOf(v);
    if d.None? then Invalid(NoDigits)
    else if n.None? || !n.value.IntV? then Invalid(Incomparable)
    else if kind == TotalDigits then
      (if d.value.0 + d.value.1 <= n.value.i then Valid else Invalid(TooManyDigits(n.value.i)))
    else if d.value.1 <= n.value.i then Valid else Invalid(TooManyFractionDigits(n.value.i))
  }

  /** Calling a parsed facet on a value: bound and digit facets compare with their own value. */
  function Validate(kind: Kind, value: Option<FacetValue>, val: Validator, v: Value): Outcome
  {
    if kind.IsBound() then
      BoundValidator(kind, if value.Some? && value.value.ValV? then Some(value.value.v) else None, v)
    else if kind == TotalDigits || kind == FractionDigits then DigitsValidator(kind, value, v)
    else RunValidator(val, v)
  }

  // ---- parsing a facet element ----

  /** The parse errors a facet reports. */
  datatype FacetError =
    | MissingValue                        // the value attribute is missing (KeyError)
    | NotAnInteger(text: string)          // int() refused the value (ValueError)
    | IntegerFraction                     // fractionDigits > 0 on a type derived from xs:integer
    | OnlyCollapse | OnlyReplaceOrCollapse
    | DifferentLength(base: int) | GreaterMinLength(base: int) | LesserMaxLength(base: int)
    | InvalidRestriction(reason: string)
    | AlsoMaximum(v: Option<Value>) | AlsoMinimum(v: Option<Value>)
    | BaseValueLower(base: int)
    | TimezoneRestriction(baseTz: Option<FacetValue>)
    | FixedTo(kind: Kind, fixedValue: FacetValue)
    | NotDecimalType

  /**
   * An error of the lax decoding of a bound value: its reason and, when a facet raised it, that
   * facet's kind and value.
   */
  datatype Issue = Issue(reason: string, facet: Option<(Kind, Option<Value>)>)

  /** base_type.decode(value, 'lax'): the decoded value (None when it fails) and its errors. */
  datatype Decoded = Decoded(value: Option<Value>, issues: seq<Issue>)

  /** What _parse_value does: raises one of the errors _parse catches, lets a TypeError escape, or sets the value. */
  datatype Step = Raised(error: FacetError)
                | Escaped(value: Option<FacetValue>)
                | Parsed(value: Option<FacetValue>, validator: Validator, errors: seq<FacetError>)

  predicate OptEq(a: Option<Value>, b: Option<Value>)
  {
    FEq(if a.Some? then Some(ValV(a.value)) else None, if b.Some? then Some(ValV(b.value)) else None)
  }

  /**
   * The whiteSpace facet: a collapse base admits only collapse, a replace base no preserve;
   * collapse and replace install their validator, any other value keeps val0.
   */
  function WhiteSpaceStep(text: string, baseValue: Option<FacetValue>, val0: Validator): (r: Step)
    ensures r.Parsed? && r.value == Some(TextV(text))
    ensures r.validator == (if text == "collapse" then CollapseCheck else if text == "replace" then ReplaceCheck else val0)
    ensures |r.errors| <= 1
    ensures r.errors != [] <==> (baseValue == Some(TextV("collapse")) && text != "collapse")
                                || (baseValue == Some(TextV("replace")) && text != "collapse" && text != "replace")
  {
    if text == "collapse" then Parsed(Some(TextV(text)), CollapseCheck, [])
    else if text == "replace" then
      Parsed(Some(TextV(text)), ReplaceCheck, if baseValue == Some(TextV("collapse")) then [OnlyCollapse] else [])
    else if baseValue == Some(TextV("collapse")) then Parsed(Some(TextV(text)), val0, [OnlyCollapse])
    else if baseValue == Some(TextV("replace")) then Parsed(Some(TextV(text)), val0, [OnlyReplaceOrCollapse])
    else Parsed(Some(TextV(text)), val0, [])
  }

  /** Length facets install no validator on QName and NOTATION (see W3C bug 4009). */
  predicate LengthChecked(t: TypeNode)
  {
    t.primitive.None? || (t.primitive.value != XSD_QNAME && t.primitive.value != XSD_NOTATION)
  }

  /** The base-value check of length (must equal), minLength (not below) and maxLength (not above). */
  function LengthErrors(kind: Kind, n: int, baseValue: Option<FacetValue>): (r: seq<FacetError>)
    requires kind.IsLength()
    ensures |r| <= 1
    ensures r != [] <==> baseValue.Some? && baseValue.value.IntV? &&
                         match kind
                         case Length => n != baseValue.value.i
                         case MinLength => n < baseValue.value.i
                         case MaxLength => n > baseValue.value.i
  {
    if baseValue.None? || !baseValue.value.IntV? then []
    else
      var b := baseValue.value.i;
      match kind
      case Length => if n != b then [DifferentLength(b)] else []
      case MinLength => if n < b then [GreaterMinLength(b)] else []
      case MaxLength => if n > b then [LesserMaxLength(b)] else []
  }

  /** The validator a length facet of value n installs. */
  function LengthValidatorOf(kind: Kind, n: int): Validator
    requires kind.IsLength()
  {
    match kind
    case Length => LengthCheck(n)
    case MinLength => MinLengthCheck(n)
    case MaxLength => MaxLengthCheck(n)
  }

  /** The installed length validator is the length check of its kind. */
  lemma RunLengthValidator(kind: Kind, n: int, v: Value)
    requires kind.IsLength()
    ensures RunValidator(LengthValidatorOf(kind, n), v) == LengthValidator(kind, n, v)
  {
  }

  function LengthStep(kind: Kind, text: string, base: TypeNode, baseValue: Option<FacetValue>, val0: Validator): Step
    requires kind.IsLength()
  {
    var n := ParseInt(text);
    if n.None? then Raised(NotAnInteger(text))
    else Parsed(Some(IntV(n.value)), if LengthChecked(base) then LengthValidatorOf(kind, n.value) else val0,
                LengthErrors(kind, n.value, baseValue))
  }

  /**
   * The errors of the lax decoding of a bound value, as "invalid restriction" errors; the
   * exclusive bounds let pass the error their own facet of the same value raises.
   */
  function IssueErrors(kind: Kind, value: Option<Value>, issues: seq<Issue>): (r: seq<FacetError>)
    ensures |r| <= |issues|
    ensures !(kind == MinExclusive || kind == MaxExclusive) ==> |r| == |issues|
    ensures forall e :: e in r ==> e.InvalidRestriction?
  {
    if issues == [] then []
    else
      var e := issues[|issues| - 1];
      IssueErrors(kind, value, issues[..|issues| - 1]) + (if OwnIssue(kind, value, e) then [] else [InvalidRestriction(e.reason)])
  }

  /** An error raised by an exclusive bound facet of this very kind and value. */
  predicate OwnIssue(kind: Kind, value: Option<Value>, e: Issue)
  {
    (kind == MinExclusive || kind == MaxExclusive) && e.facet.Some? && e.facet.value.0 == kind && OptEq(e.facet.value.1, value)
  }

  function AsFacetValue(v: Option<Value>): Option<FacetValue>
  {
    if v.Some? then Some(ValV(v.value)) else None
  }

  /**
   * A bound facet: the value decoded by the base type, its decoding errors, and for an exclusive
   * bound an error when it equals the base type's opposite inclusive bound.
   */
  function BoundStep(kind: Kind, d: Decoded, chain: seq<TypeNode>, val0: Validator): (r: Step)
    requires kind.IsBound() && |chain| > 0
    ensures r.Parsed? && r.value == AsFacetValue(d.value) && r.validator == val0
    ensures |IssueErrors(kind, d.value, d.issues)| <= |r.errors|
    ensures r.errors[..|IssueErrors(kind, d.value, d.issues)|] == IssueErrors(kind, d.value, d.issues)
    ensures kind == MinExclusive ==>
              (|r.errors| > |IssueErrors(kind, d.value, d.issues)| <==>
                 var f := GetFacet(chain, 0, MaxInclusive); f.Some? && FEq(f.value.value, AsFacetValue(d.value)))
    ensures kind == MaxExclusive ==>
              (|r.errors| > |IssueErrors(kind, d.value, d.issues)| <==>
                 var f := GetFacet(chain, 0, MinInclusive); f.Some? && FEq(f.value.value, AsFacetValue(d.value)))
    ensures !(kind == MinExclusive || kind == MaxExclusive) ==> r.errors == IssueErrors(kind, d.value, d.issues)
  {
    var errs := IssueErrors(kind, d.value, d.issues);
    var value := AsFacetValue(d.value);
    var extra :=
      if kind == MinExclusive then
        (var f := GetFacet(chain, 0, MaxInclusive); if f.Some? && FEq(f.value.value, value) then [AlsoMaximum(d.value)] else [])
      else if kind == MaxExclusive then
        (var f := GetFacet(chain, 0, MinInclusive); if f.Some? && FEq(f.value.value, value) then [AlsoMinimum(d.value)] else [])
      else [];
    assert (errs + extra)[..|errs|] == errs;
    Parsed(value, val0, errs + extra)
  }

  const UNSET_DIGITS := 9999

  /** int() of the value attribute, None when it is missing or unreadable. */
  function ReadDigits(attrib: map<string, string>): Option<int>
  {
    if "value" in attrib then ParseInt(attrib["value"]) else None
  }

  /**
   * The value totalDigits and fractionDigits hold: the attribute's int, or 9999 when it is
   * missing, unreadable, or below the least value (1 for totalDigits, 0 for fractionDigits).
   */
  function DigitsSetting(kind: Kind, attrib: map<string, string>): (r: int)
    requires kind == TotalDigits || kind == FractionDigits
    ensures r >= (if kind == TotalDigits then 1 else 0)
    ensures ReadDigits(attrib).None? ==> r == UNSET_DIGITS
    ensures ReadDigits(attrib).Some? ==>
              r == (if ReadDigits(attrib).value < (if kind == TotalDigits then 1 else 0) then UNSET_DIGITS else ReadDigits(attrib).value)
  {
    var n := ReadDigits(attrib);
    if n.None? || n.value < (if kind == TotalDigits then 1 else 0) then UNSET_DIGITS else n.value
  }

  /**
   * totalDigits and fractionDigits: the value is DigitsSetting; fractionDigits above 0 on an
   * integer type raises; a value above the base type's is an error, and a base value that is
   * not an int makes the comparison raise a TypeError.
   */
  function DigitsStep(kind: Kind, attrib: map<string, string>, base: TypeNode, chain: seq<TypeNode>, val0: Validator): (r: Step)
    requires kind == TotalDigits || kind == FractionDigits
    requires |chain| > 0
    ensures r.Raised? <==> kind == FractionDigits && ReadDigits(attrib).Some? && ReadDigits(attrib).value > 0 && base.fromInteger
    ensures !r.Raised? ==> r.value == Some(IntV(DigitsSetting(kind, attrib)))
    ensures r.Escaped? ==> ReadDigits(attrib).Some?
    ensures r.Parsed? ==> r.validator == val0
    ensures r.Parsed? && ReadDigits(attrib).Some? ==>
              (r.errors != [] <==> var f := GetFacet(chain, 0, kind);
                                   f.Some? && f.value.value.Some? && f.value.value.value.IntV? &&
                                   f.value.value.value.i < DigitsSetting(kind, attrib))
    ensures r.Parsed? && ReadDigits(attrib).None? ==> r.errors == []
  {
    var n := ReadDigits(attrib);
    var v := DigitsSetting(kind, attrib);
    if n.None? then Parsed(Some(IntV(v)), val0, [])
    else if kind == FractionDigits && n.value > 0 && base.fromInteger then Raised(IntegerFraction)
    else
      var f := GetFacet(chain, 0, kind);
      if f.None? then Parsed(Some(IntV(v)), val0, [])
      else if f.value.value.None? || !f.value.value.value.IntV? then Escaped(Some(IntV(v)))
      else if f.value.value.value.i < v then Parsed(Some(IntV(v)), val0, [BaseValueLower(f.value.value.value.i)])
      else Parsed(Some(IntV(v)), val0, [])
  }

  /**
   * explicitTimezone: prohibited and required install their validator, any other value reads
   * as optional; a base facet other than optional may not be changed.
   */
  function TimezoneStep(text: string, chain: seq<TypeNode>, val0: Validator): (r: Step)
    requires |chain| > 0
    ensures r.Parsed?
    ensures r.value == Some(TextV(if text == "prohibited" || text == "required" then text else "optional"))
    ensures r.validator == (if text == "prohibited" then TzProhibited else if text == "required" then TzRequired else val0)
    ensures r.errors != [] <==> var f := GetFacet(chain, 0, ExplicitTimezone);
                               f.Some? && !FEq(f.value.value, r.value) && !FEq(f.value.value, Some(TextV("optional")))
  {
    var v := if text == "prohibited" || text == "required" then text else "optional";
    var val := if text == "prohibited" then TzProhibited else if text == "required" then TzRequired else val0;
    var f := GetFacet(chain, 0, ExplicitTimezone);
    var errs := if f.Some? && !FEq(f.value.value, Some(TextV(v))) && !FEq(f.value.value, Some(TextV("optional")))
                then [TimezoneRestriction(f.value.value)] else [];
    Parsed(Some(TextV(v)), val, errs)
  }

  /** _parse_value of each facet kind; chain[0] is the facet's base type, val0 its current validator. */
  function ParseValue(kind: Kind, attrib: map<string, string>, chain: seq<TypeNode>, codec: string -> Decoded,
                      baseValue: Option<FacetValue>, val0: Validator): Step
    requires |chain| > 0
  {
    var text := if "value" in attrib then Some(attrib["value"]) else None;
    match kind
    case TotalDigits => DigitsStep(kind, attrib, chain[0], chain, val0)
    case FractionDigits => DigitsStep(kind, attrib, chain[0], chain, val0)
    case WhiteSpace => if text.None? then Raised(MissingValue) else WhiteSpaceStep(text.value, baseValue, val0)
    case Length => if text.None? then Raised(MissingValue) else LengthStep(kind, text.value, chain[0], baseValue, val0)
    case MinLength => if text.None? then Raised(MissingValue) else LengthStep(kind, text.value, chain[0], baseValue, val0)
    case MaxLength => if text.None? then Raised(MissingValue) else LengthStep(kind, text.value, chain[0], baseValue, val0)
    case ExplicitTimezone => if text.None? then Raised(MissingValue) else TimezoneStep(text.value, chain, val0)
    case MinInclusive => if text.None? then Raised(MissingValue) else BoundStep(kind, codec(text.value), chain, val0)
    case MinExclusive => if text.None? then Raised(MissingValue) else BoundStep(kind, codec(text.value), chain, val0)
    case MaxInclusive => if text.None? then Raised(MissingValue) else BoundStep(kind, codec(text.value), chain, val0)
    case MaxExclusive => if text.None? then Raised(MissingValue) else BoundStep(kind, codec(text.value), chain, val0)
  }

  /** LengthStep by the outcome n of int() on the text. */
  lemma LengthStepCases(kind: Kind, text: string, base: TypeNode, b: Option<FacetValue>, val0: Validator, n: Option<int>)
    requires kind.IsLength() && n == ParseInt(text)
    ensures n.None? ==> LengthStep(kind, text, base, b, val0) == Raised(NotAnInteger(text))
    ensures n.Some? ==> LengthStep(kind, text, base, b, val0)
                        == Parsed(Some(IntV(n.value)), if LengthChecked(base) then LengthValidatorOf(kind, n.value) else val0,
                                  LengthErrors(kind, n.value, b))
  {
  }

  /** The fields ParseLength leaves on each path are those LengthStep applies. */
  lemma LengthApplied(kind: Kind, text: string, base: TypeNode, b: Option<FacetValue>, value0: Option<FacetValue>,
                      val0: Validator, errors0: seq<FacetError>, n: Option<int>)
    requires kind.IsLength() && n == ParseInt(text)
    ensures n.None? ==> Applied(LengthStep(kind, text, base, b, val0), Some(NotAnInteger(text)), false, value0, val0, errors0,
                                value0, val0, errors0)
    ensures n.Some? ==> Applied(LengthStep(kind, text, base, b, val0), None, false, Some(IntV(n.value)),
                                if LengthChecked(base) then LengthValidatorOf(kind, n.value) else val0,
                                errors0 + LengthErrors(kind, n.value, b), value0, val0, errors0)
  {
    LengthStepCases(kind, text, base, b, val0, n);
  }

  /** The fields after _parse_value did what the step says, from value0, val0 and errors0. */
  predicate Applied(s: Step, raised: Option<FacetError>, escaped: bool, value: Option<FacetValue>, validator: Validator,
                    errors: seq<FacetError>, value0: Option<FacetValue>, val0: Validator, errors0: seq<FacetError>)
  {
    match s
    case Raised(e) => raised == Some(e) && !escaped && value == value0 && validator == val0 && errors == errors0
    case Escaped(v) => raised.None? && escaped && value == v && validator == val0 && errors == errors0
    case Parsed(v, val, errs) => raised.None? && !escaped && value == v && validator == val && errors == errors0 + errs
  }

  /** The errors _parse adds after _parse_value, for a step that did not escape. */
  lemma FinishErrors(kind: Kind, fixed: bool, bf: Option<FacetInfo>, notDecimal: bool, s: Step, val0: Validator,
                     errors0: seq<FacetError>, errs: seq<FacetError>, added: seq<FacetError>)
    requires !s.Escaped?
    requires s.Raised? ==> errs == errors0 && added == [s.error] + (if notDecimal then [NotDecimalType] else [])
    requires s.Parsed? ==> errs == errors0 + s.errors && added == FixedErrors(kind, bf, s.value) + (if notDecimal then [NotDecimalType] else [])
    ensures errs + added == errors0 + Finish(kind, fixed, bf, notDecimal, s, val0).errors
  {
    var extra := if notDecimal then [NotDecimalType] else [];
    if s.Parsed? {
      assert errors0 + s.errors + (FixedErrors(kind, bf, s.value) + extra) == errors0 + (s.errors + FixedErrors(kind, bf, s.value) + extra);
    }
  }

  /** fixed="true" or fixed="1". */
  predicate FixedAttr(attrib: map<string, string>)
  {
    "fixed" in attrib && (attrib["fixed"] == "true" || attrib["fixed"] == "1")
  }

  /** A fixed base facet with a value may not be given a different value. */
  function FixedErrors(kind: Kind, bf: Option<FacetInfo>, value: Option<FacetValue>): (r: seq<FacetError>)
    ensures r != [] <==> bf.Some? && bf.value.fixed && bf.value.value.Some? && !FEq(value, bf.value.value)
    ensures r != [] ==> r == [FixedTo(kind, bf.value.value.value)]
  {
    if bf.Some? && bf.value.fixed && bf.value.value.Some? && !FEq(value, bf.value.value)
    then [FixedTo(kind, bf.value.value.value)] else []
  }

  /** The state of a facet once parsed; escaped says a TypeError left the parse unfinished. */
  datatype FacetState = FacetState(fixed: bool, baseValue: Option<FacetValue>, value: Option<FacetValue>,
                                   validator: Validator, errors: seq<FacetError>, escaped: bool)

  /**
   * XsdFacet._parse followed, for fractionDigits, by the constructor's check that the base
   * type derives from xs:decimal; val0 is the validator the facet starts with.
   */
  function ParseFacet(kind: Kind, attrib: map<string, string>, chain: seq<TypeNode>, codec: string -> Decoded,
                      val0: Validator): FacetState
    requires |chain| > 0
  {
    var bf := FirstFacet(chain, 0, kind);
    Finish(kind, FixedAttr(attrib), bf, kind == FractionDigits && !chain[0].fromDecimal,
           ParseValue(kind, attrib, chain, codec, BaseValueOf(bf), val0), val0)
  }

  function BaseValueOf(bf: Option<FacetInfo>): Option<FacetValue>
  {
    if bf.None? then None else bf.value.value
  }

  /**
   * What _parse makes of the step of _parse_value: a raised error is reported and leaves no
   * value, a parsed value is checked against a fixed base facet; notDecimal adds the
   * fractionDigits constructor's error.
   */
  function Finish(kind: Kind, fixed: bool, bf: Option<FacetInfo>, notDecimal: bool, s: Step, val0: Validator): FacetState
  {
    var extra := if notDecimal then [NotDecimalType] else [];
    match s
    case Escaped(v) => FacetState(fixed, BaseValueOf(bf), v, val0, [], true)
    case Raised(e) => FacetState(fixed, BaseValueOf(bf), None, val0, [e] + extra, false)
    case Parsed(v, val, errs) => FacetState(fixed, BaseValueOf(bf), v, val, errs + FixedErrors(kind, bf, v) + extra, false)
  }

  /**
   * A length facet whose value attribute is str(n): its value is n, it checks lengths against
   * n unless the primitive type is QName or NOTATION, and it reports an error exactly when the
   * base facet has an int value that the kind's rule (equal, not below, not above) refuses or
   * when a fixed base facet has another value.
   */
  lemma LengthFacetParsed(kind: Kind, n: int, attrib: map<string, string>, chain: seq<TypeNode>,
                          codec: string -> Decoded, val0: Validator)
    requires kind.IsLength() && |chain| > 0 && "value" in attrib && attrib["value"] == IntText(n)
    ensures var s := ParseFacet(kind, attrib, chain, codec, val0);
            var bf := FirstFacet(chain, 0, kind);
            s.value == Some(IntV(n)) && !s.escaped && s.fixed == FixedAttr(attrib)
            && (LengthChecked(chain[0]) ==> s.validator == LengthValidatorOf(kind, n))
            && (!LengthChecked(chain[0]) ==> s.validator == val0)
            && s.errors == LengthErrors(kind, n, BaseValueOf(bf)) + FixedErrors(kind, bf, Some(IntV(n)))
  {
    var bf := FirstFacet(chain, 0, kind);
    var b := BaseValueOf(bf);
    var v := if LengthChecked(chain[0]) then LengthValidatorOf(kind, n) else val0;
    calc {
      ParseFacet(kind, attrib, chain, codec, val0);
    == { ParseFacetNotDigits(kind, attrib, chain, codec, val0); }
      Finish(kind, FixedAttr(attrib), bf, false, ParseValue(kind, attrib, chain, codec, b, val0), val0);
    == { LengthValueStep(kind, attrib, n, chain, codec, b, val0); LengthStepOfInt(kind, n, chain[0], b, val0); }
      Finish(kind, FixedAttr(attrib), bf, false, Parsed(Some(IntV(n)), v, LengthErrors(kind, n, b)), val0);
    == { FinishParsed(kind, FixedAttr(attrib), bf, Some(IntV(n)), v, LengthErrors(kind, n, b), val0); }
      FacetState(FixedAttr(attrib), b, Some(IntV(n)), v, LengthErrors(kind, n, b) + FixedErrors(kind, bf, Some(IntV(n))), false);
    }
  }

  /** Only fractionDigits adds the constructor's decimal check to the parse. */
  lemma ParseFacetNotDigits(kind: Kind, attrib: map<string, string>, chain: seq<TypeNode>, codec: string -> Decoded,
                            val0: Validator)
    requires kind != FractionDigits && |chain| > 0
    ensures var bf := FirstFacet(chain, 0, kind);
            ParseFacet(kind, attrib, chain, codec, val0)
            == Finish(kind, FixedAttr(attrib), bf, false, ParseValue(kind, attrib, chain, codec, BaseValueOf(bf), val0), val0)
  {
  }

  /** Finish on a parsed value keeps it and its validator and adds the fixed check's errors. */
  lemma FinishParsed(kind: Kind, fixed: bool, bf: Option<FacetInfo>, v: Option<FacetValue>, val: Validator,
                     errs: seq<FacetError>, val0: Validator)
    ensures Finish(kind, fixed, bf, false, Parsed(v, val, errs), val0)
            == FacetState(fixed, BaseValueOf(bf), v, val, errs + FixedErrors(kind, bf, v), false)
  {
    assert errs + FixedErrors(kind, bf, v) + [] == errs + FixedErrors(kind, bf, v);
  }

  /** _parse_value of a length facet reads the value attribute with LengthStep. */
  lemma LengthValueStep(kind: Kind, m: map<string, string>, n: int, chain: seq<TypeNode>, codec: string -> Decoded,
                        b: Option<FacetValue>, val0: Validator)
    requires kind.IsLength() && |chain| > 0 && "value" in m && m["value"] == IntText(n)
    ensures ParseValue(kind, m, chain, codec, b, val0) == LengthStep(kind, IntText(n), chain[0], b, val0)
  {
  }

  /** LengthStep on str(n) parses n. */
  lemma LengthStepOfInt(kind: Kind, n: int, node: TypeNode, b: Option<FacetValue>, val0: Validator)
    requires kind.IsLength()
    ensures LengthStep(kind, IntText(n), node, b, val0)
            == Parsed(Some(IntV(n)), if LengthChecked(node) then LengthValidatorOf(kind, n) else val0, LengthErrors(kind, n, b))
  {
    ParseIntText(n);
  }

  /**
   * totalDigits whose value cannot be read, or is below 1, holds 9999; so does fractionDigits
   * with an unreadable or negative value.
   */
  lemma DigitsDefault(kind: Kind, attrib: map<string, string>, chain: seq<TypeNode>, codec: string -> Decoded, val0: Validator)
    requires (kind == TotalDigits || kind == FractionDigits) && |chain| > 0
    requires ReadDigits(attrib).None? || ReadDigits(attrib).value < (if kind == TotalDigits then 1 else 0)
    ensures ParseFacet(kind, attrib, chain, codec, val0).value == Some(IntV(UNSET_DIGITS))
  {
    var bf := FirstFacet(chain, 0, kind);
    var st := DigitsStep(kind, attrib, chain[0], chain, val0);
    assert ParseValue(kind, attrib, chain, codec, BaseValueOf(bf), val0) == st;
    assert !st.Raised? && st.value == Some(IntV(UNSET_DIGITS));
  }

  // ---- the facet object ----

  /** A facet being built: the fields _parse and _parse_value assign. */
  class Facet {
    const kind: Kind
    var fixed: bool
    var baseValue: Option<FacetValue>
    var value: Option<FacetValue>
    var validator: Validator
    var errors: seq<FacetError>

    constructor (kind: Kind)
      ensures this.kind == kind && !fixed && baseValue.None? && value.None? && validator == NoCheck && errors == []
    {
      this.kind := kind;
      fixed := false;
      baseValue := None;
      value := None;
      validator := NoCheck;
      errors := [];
    }

    /** The facet as a value. */
    function State(escaped: bool): FacetState
      reads this
    {
      FacetState(fixed, baseValue, value, validator, errors, escaped)
    }

    /** XsdFacet.__call__ on a value. */
    function Call(v: Value): Outcome
      reads this
    {
      Validate(kind, value, validator, v)
    }

    /** base_facet: walks the base types until one has a facet of this kind. */
    method BaseFacet(chain: seq<TypeNode>) returns (r: Option<FacetInfo>)
      ensures r == FirstFacet(chain, 0, kind)
    {
      var i := 0;
      while i < |chain|
        invariant 0 <= i <= |chain|
        invariant FirstFacet(chain, 0, kind) == FirstFacet(chain, i, kind)
        decreases |chain| - i
      {
        if chain[i].facets.Some? && kind in chain[i].facets.value {
          return Some(chain[i].facets.value[kind]);
        }
        i := i + 1;
      }
      return None;
    }

    /** Appends the decoding errors of a bound value, one at a time. */
    method ReportIssues(d: Decoded)
      modifies this
      ensures errors == old(errors) + IssueErrors(kind, d.value, d.issues)
      ensures fixed == old(fixed) && baseValue == old(baseValue) && value == old(value) && validator == old(validator)
    {
      var i := 0;
      while i < |d.issues|
        invariant 0 <= i <= |d.issues|
        invariant errors == old(errors) + IssueErrors(kind, d.value, d.issues[..i])
        invariant fixed == old(fixed) && baseValue == old(baseValue) && value == old(value) && validator == old(validator)
        decreases |d.issues| - i
      {
        var e := d.issues[i];
        assert d.issues[..i + 1][..i] == d.issues[..i];
        if !OwnIssue(kind, d.value, e) {
          errors := errors + [InvalidRestriction(e.reason)];
        }
        i := i + 1;
      }
      assert d.issues[..i] == d.issues;
    }

    /** totalDigits and fractionDigits _parse_value. */
    method ParseDigits(attrib: map<string, string>, chain: seq<TypeNode>) returns (raised: Option<FacetError>, escaped: bool)
      requires (kind == TotalDigits || kind == FractionDigits) && |chain| > 0
      modifies this
      ensures Applied(DigitsStep(kind, attrib, chain[0], chain, old(validator)), raised, escaped, value, validator, errors,
                      old(value), old(validator), old(errors))
      ensures fixed == old(fixed) && baseValue == old(baseValue)
    {
      raised, escaped := None, false;
      var n := ReadDigits(attrib);
      if n.None? {
        value := Some(IntV(UNSET_DIGITS));
        return;
      }
      if kind == FractionDigits && n.value > 0 && chain[0].fromInteger {
        return Some(IntegerFraction), false;
      }
      var v := n.value;
      if v < (if kind == TotalDigits then 1 else 0) {
        v := UNSET_DIGITS;
      }
      value := Some(IntV(v));
      var f := GetFacet(chain, 0, kind);
      if f.Some? {
        if f.value.value.None? || !f.value.value.value.IntV? {
          return None, true;
        }
        if f.value.value.value.i < v {
          errors := errors + [BaseValueLower(f.value.value.value.i)];
        }
      }
    }

    /** whiteSpace _parse_value on the value attribute. */
    method ParseWhiteSpace(text: string) returns (raised: Option<FacetError>, escaped: bool)
      modifies this
      ensures Applied(WhiteSpaceStep(text, old(baseValue), old(validator)), raised, escaped, value, validator, errors,
                      old(value), old(validator), old(errors))
      ensures fixed == old(fixed) && baseValue == old(baseValue)
    {
      raised, escaped := None, false;
      value := Some(TextV(text));
      if text == "collapse" {
        validator := CollapseCheck;
      } else if text == "replace" {
        if baseValue == Some(TextV("collapse")) {
          errors := errors + [OnlyCollapse];
        }
        validator := ReplaceCheck;
      } else if baseValue == Some(TextV("collapse")) {
        errors := errors + [OnlyCollapse];
      } else if baseValue == Some(TextV("replace")) {
        errors := errors + [OnlyReplaceOrCollapse];
      }
    }

    /** length, minLength and maxLength _parse_value on the value attribute. */
    method ParseLength(text: string, base: TypeNode) returns (raised: Option<FacetError>, escaped: bool)
      requires kind.IsLength()
      modifies this
      ensures Applied(LengthStep(kind, text, base, old(baseValue), old(validator)), raised, escaped, value, validator, errors,
                      old(value), old(validator), old(errors))
      ensures fixed == old(fixed) && baseValue == old(baseValue)
    {
      raised, escaped := None, false;
      var n := ParseInt(text);
      LengthApplied(kind, text, base, baseValue, value, validator, errors, n);
      if n.None? {
        raised := Some(NotAnInteger(text));
      } else {
        value, validator, errors := Some(IntV(n.value)), if LengthChecked(base) then LengthValidatorOf(kind, n.value) else validator,
                                    errors + LengthErrors(kind, n.value, baseValue);
      }
    }

    /** explicitTimezone _parse_value on the value attribute. */
    method ParseTimezone(text: string, chain: seq<TypeNode>) returns (raised: Option<FacetError>, escaped: bool)
      requires |chain| > 0
      modifies this
      ensures Applied(TimezoneStep(text, chain, old(validator)), raised, escaped, value, validator, errors,
                      old(value), old(validator), old(errors))
      ensures fixed == old(fixed) && baseValue == old(baseValue)
    {
      raised, escaped := None, false;
      if text == "prohibited" {
        validator := TzProhibited;
      } else if text == "required" {
        validator := TzRequired;
      }
      value := Some(TextV(if text == "prohibited" || text == "required" then text else "optional"));
      var f := GetFacet(chain, 0, ExplicitTimezone);
      if f.Some? && !FEq(f.value.value, value) && !FEq(f.value.value, Some(TextV("optional"))) {
        errors := errors + [TimezoneRestriction(f.value.value)];
      }
    }

    /** The bound facets' _parse_value on the value attribute, decoded by the base type. */
    method ParseBound(text: string, chain: seq<TypeNode>, codec: string -> Decoded) returns (raised: Option<FacetError>, escaped: bool)
      requires kind.IsBound() && |chain| > 0
      modifies this
      ensures Applied(BoundStep(kind, codec(text), chain, old(validator)), raised, escaped, value, validator, errors,
                      old(value), old(validator), old(errors))
      ensures fixed == old(fixed) && baseValue == old(baseValue)
    {
      raised, escaped := None, false;
      var d := codec(text);
      value := AsFacetValue(d.value);
      ReportIssues(d);
      if kind == MinExclusive {
        var f := GetFacet(chain, 0, MaxInclusive);
        if f.Some? && FEq(f.value.value, value) {
          errors := errors + [AlsoMaximum(d.value)];
        }
      } else if kind == MaxExclusive {
        var f := GetFacet(chain, 0, MinInclusive);
        if f.Some? && FEq(f.value.value, value) {
          errors := errors + [AlsoMinimum(d.value)];
        }
      }
    }

    /**
     * _parse_value: assigns the value and the validator and reports the errors of this kind;
     * returns the error it raises, if any, and whether a TypeError escaped.
     */
    method ParseValueStep(attrib: map<string, string>, chain: seq<TypeNode>, codec: string -> Decoded)
      returns (raised: Option<FacetError>, escaped: bool)
      requires |chain| > 0
      modifies this
      ensures Applied(ParseValue(kind, attrib, chain, codec, old(baseValue), old(validator)), raised, escaped,
                      value, validator, errors, old(value), old(validator), old(errors))
      ensures fixed == old(fixed) && baseValue == old(baseValue)
    {
      if kind == TotalDigits || kind == FractionDigits {
        raised, escaped := ParseDigits(attrib, chain);
      } else if "value" !in attrib {
        raised, escaped := Some(MissingValue), false;
      } else if kind == WhiteSpace {
        raised, escaped := ParseWhiteSpace(attrib["value"]);
      } else if kind.IsLength() {
        raised, escaped := ParseLength(attrib["value"], chain[0]);
      } else if kind == ExplicitTimezone {
        raised, escaped := ParseTimezone(attrib["value"], chain);
      } else {
        raised, escaped := ParseBound(attrib["value"], chain, codec);
      }
    }

    /**
     * The tail of XsdFacet._parse once _parse_value has run as step s says without a TypeError:
     * a raised error is reported and clears the value, otherwise a fixed base facet with another
     * value is reported; then the fractionDigits constructor's check, when notDecimal.
     */
    method Report(raised: Option<FacetError>, bf: Option<FacetInfo>, notDecimal: bool, ghost s: Step,
                  ghost value0: Option<FacetValue>, ghost val0: Validator, ghost errors0: seq<FacetError>)
      requires Applied(s, raised, false, value, validator, errors, value0, val0, errors0)
      modifies this
      ensures var f := Finish(kind, fixed, bf, notDecimal, s, val0);
              value == f.value && validator == f.validator && errors == errors0 + f.errors
      ensures fixed == old(fixed) && baseValue == old(baseValue)
    {
      var added: seq<FacetError> := [];
      if raised.Some? {
        value := None;
        added := [raised.value];
      } else if bf.Some? && bf.value.fixed && bf.value.value.Some? && !FEq(value, bf.value.value) {
        added := [FixedTo(kind, bf.value.value.value)];
      }
      if notDecimal {
        added := added + [NotDecimalType];
      }
      FinishErrors(kind, fixed, bf, notDecimal, s, val0, errors0, errors, added);
      errors := errors + added;
    }

    /**
     * The parse of a newly built facet (XsdFacet._parse, and the fractionDigits constructor
     * check): the fixed flag, the base facet's value, _parse_value, and the fixed base check.
     * Returns whether a TypeError escaped.
     */
    method Parse(attrib: map<string, string>, chain: seq<TypeNode>, codec: string -> Decoded) returns (escaped: bool)
      requires |chain| > 0
      modifies this
      ensures var s := ParseFacet(kind, attrib, chain, codec, old(validator));
              fixed == s.fixed && baseValue == s.baseValue && value == s.value && validator == s.validator
              && errors == old(errors) + s.errors && escaped == s.escaped
    {
      fixed := "fixed" in attrib && (attrib["fixed"] == "true" || attrib["fixed"] == "1");
      var bf := BaseFacet(chain);
      baseValue := BaseValueOf(bf);
      ghost var s := ParseValue(kind, attrib, chain, codec, baseValue, validator);
      var notDecimal := kind == FractionDigits && !chain[0].fromDecimal;
      assert ParseFacet(kind, attrib, chain, codec, old(validator)) == Finish(kind, fixed, bf, notDecimal, s, old(validator));
      var raised;
      raised, escaped := ParseValueStep(attrib, chain, codec);
      if escaped {
        return;
      }
      Report(raised, bf, notDecimal, s, old(value), old(validator), old(errors));
    }
  }
}
