// Attribute declarations and attribute groups: how a declared attribute decodes its value
// (default and fixed value constraints) and how an attribute group decodes the attributes of
// an element (required, prohibited, unknown and missing attributes).
module Attributes {
  import opened Wrappers
  import Strs
  import F = Facets

  const XSI_NAMESPACE: string := "http://www.w3.org/2001/XMLSchema-instance"

  datatype Use = Optional | Required | Prohibited

  /**
   * What decoding an attribute value yields: the empty marker (nothing is added to the
   * result), Python's None, or a decoded value.
   */
  datatype AttrItem = EmptyItem | NoneItem | ValueItem(v: F.Value)

  /** The lax decoding of a simple type: the reasons of its validation errors, then its item. */
  datatype TypeDecoding = TypeDecoding(reasons: seq<string>, item: AttrItem)

  /**
   * How a simple type stands to xs:NOTATION: not derived from it, xs:NOTATION itself, or a
   * subtype of it with or without an enumeration facet.
   */
  datatype NotationKind = NotNotation | NotationType | NotationSubtype(hasEnumeration: bool)

  /**
   * The simple type of an attribute: text_decode gives the value a text stands for (used to
   * compare a value with the fixed one), raw_decode the lax decoding of a value or of None.
   */
  datatype AttrType = AttrType(textDecode: string -> F.Value, rawDecode: Option<string> -> TypeDecoding,
                               notation: NotationKind)

  /** An attribute declaration (XsdAttribute). */
  datatype Attribute = Attribute(name: string, use: Use, default: Option<string>, fixed: Option<string>, typ: AttrType)

  /**
   * An attribute wildcard (XsdAnyAttribute): its is_matching on a name, and its decoding of a
   * (name, value) pair.
   */
  datatype AnyAttribute = AnyAttribute(matches: string -> bool, decode: (string, string) -> TypeDecoding)

  /** A value of the attribute group's dictionary: a declaration or the wildcard. */
  datatype Decl = Attr(a: Attribute) | Any(w: AnyAttribute)

  /** The name of a dictionary value: a wildcard has none. */
  function DeclName(d: Decl): Option<string>
  {
    match d
    case Attr(a) => Some(a.name)
    case Any(_) => None
  }

  /** The errors of attribute decoding. `attribute` is the attribute being decoded at the time. */
  datatype AttrError =
    | MissingRequired(name: string)
    | NotXsiAttribute(name: string)
    | NotAllowed(name: string)
    | ProhibitedUse(name: string)
    | FixedMismatch(attribute: string, fixed: string)
    | InvalidValue(attribute: string, reason: string)
    | NotationDirect(attribute: string)
    | NotationWithoutEnumeration(attribute: string)

  datatype Decoding = Decoding(errors: seq<AttrError>, item: AttrItem)

  /** The type's errors, reported while the attribute is the one being decoded. */
  function Tagged(attribute: string, reasons: seq<string>): (r: seq<AttrError>)
    ensures |r| == |reasons|
    ensures forall k :: 0 <= k < |r| ==> r[k] == InvalidValue(attribute, reasons[k])
  {
    if reasons == [] then [] else [InvalidValue(attribute, reasons[0])] + Tagged(attribute, reasons[1..])
  }

  // ---- XsdAttribute.raw_decode ----

  /** The value is a mismatch for the fixed one: it differs both as text and as decoded value. */
  predicate FixedDiffers(a: Attribute, obj: Option<string>)
  {
    a.fixed.Some? && obj.Some? && obj.value != a.fixed.value
    && a.typ.textDecode(obj.value) != a.typ.textDecode(a.fixed.value)
  }

  /** The validation error of an xs:NOTATION type that cannot validate a value, if any. */
  function NotationErrors(a: Attribute): seq<AttrError>
  {
    match a.typ.notation
    case NotNotation => []
    case NotationType => [NotationDirect(a.name)]
    case NotationSubtype(hasEnumeration) => if hasEnumeration then [] else [NotationWithoutEnumeration(a.name)]
  }

  /**
   * XsdAttribute.raw_decode: a missing value takes the default; a type that is xs:NOTATION
   * itself, or a subtype of it without an enumeration facet, is an error; with a fixed value,
   * a missing value takes the fixed one and a value that decodes differently is an error;
   * then the attribute's type decodes the value.
   */
  function AttributeDecode(a: Attribute, obj: Option<string>): Decoding
  {
    var o := if obj.None? && a.default.Some? then a.default else obj;
    var fixedErrors := if FixedDiffers(a, o) then [FixedMismatch(a.name, a.fixed.value)] else [];
    var o' := if a.fixed.Some? && o.None? then a.fixed else o;
    var d := a.typ.rawDecode(o');
    Decoding(NotationErrors(a) + fixedErrors + Tagged(a.name, d.reasons), d.item)
  }

  /** The errors of an xs:NOTATION type, which a declaration reports whatever the value. */
  predicate IsNotationError(e: AttrError) { e.NotationDirect? || e.NotationWithoutEnumeration? }

  /**
   * The type decodes the value actually given to it; the only other errors are a fixed
   * mismatch and those of an xs:NOTATION type.
   */
  lemma AttributeDecodeMeaning(a: Attribute, obj: Option<string>)
    ensures obj.Some? ==> AttributeDecode(a, obj).item == a.typ.rawDecode(obj).item
    ensures obj.None? && a.default.Some? ==> AttributeDecode(a, obj).item == a.typ.rawDecode(a.default).item
    ensures obj.None? && a.default.None? ==> AttributeDecode(a, obj).item == a.typ.rawDecode(a.fixed).item
    ensures FixedMismatch(a.name, a.fixed.GetOr("")) in AttributeDecode(a, obj).errors <==>
              FixedDiffers(a, if obj.None? then a.default else obj)
    ensures forall e :: e in AttributeDecode(a, obj).errors ==> e.FixedMismatch? || e.InvalidValue? || IsNotationError(e)
  {
    var o := if obj.None? && a.default.Some? then a.default else obj;
    var d := AttributeDecode(a, obj);
    var t := Tagged(a.name, a.typ.rawDecode(if a.fixed.Some? && o.None? then a.fixed else o).reasons);
    assert forall e :: e in t ==> e.InvalidValue?;
    var fixedErrors := if FixedDiffers(a, o) then [FixedMismatch(a.name, a.fixed.value)] else [];
    assert d.errors == NotationErrors(a) + fixedErrors + t;
  }

  /**
   * Whatever the value, a type that is xs:NOTATION itself reports that it cannot validate
   * directly, and a subtype of it without an enumeration facet that the facet is missing.
   */
  lemma NotationReported(a: Attribute, obj: Option<string>)
    ensures NotationDirect(a.name) in AttributeDecode(a, obj).errors <==> a.typ.notation == NotationType
    ensures NotationWithoutEnumeration(a.name) in AttributeDecode(a, obj).errors <==>
              a.typ.notation == NotationSubtype(false)
    ensures forall e :: e in AttributeDecode(a, obj).errors && IsNotationError(e) ==> e.attribute == a.name
  {
    var o := if obj.None? && a.default.Some? then a.default else obj;
    var t := Tagged(a.name, a.typ.rawDecode(if a.fixed.Some? && o.None? then a.fixed else o).reasons);
    assert forall e :: e in t ==> e.InvalidValue?;
    var fixedErrors := if FixedDiffers(a, o) then [FixedMismatch(a.name, a.fixed.value)] else [];
    assert AttributeDecode(a, obj).errors == NotationErrors(a) + fixedErrors + t;
  }

  /** A value equal to the fixed one, or a missing value with no default, is never a mismatch. */
  lemma FixedValueAccepted(a: Attribute, obj: Option<string>)
    requires a.fixed.Some? && (obj == a.fixed || (obj.None? && a.default.None?))
    ensures forall e :: e in AttributeDecode(a, obj).errors ==> e.InvalidValue? || IsNotationError(e)
    ensures AttributeDecode(a, obj).item == a.typ.rawDecode(a.fixed).item
  {
    var d := a.typ.rawDecode(a.fixed);
    assert forall e :: e in Tagged(a.name, d.reasons) ==> e.InvalidValue?;
  }

  // ---- string order, for sorted() ----

  /** Python's < on strings: code point by code point, a proper prefix first. */
  predicate Less(a: string, b: string)
    decreases |a|
  {
    if a == [] then b != []
    else if b == [] then false
    else if a[0] != b[0] then a[0] < b[0]
    else Less(a[1..], b[1..])
  }

  lemma {:induction false} LessIrreflexive(a: string)
    ensures !Less(a, a)
    decreases |a|
  {
    if a != [] {
      LessIrreflexive(a[1..]);
    }
  }

  lemma {:induction false} LessTotal(a: string, b: string)
    ensures a == b || Less(a, b) || Less(b, a)
    decreases |a|
  {
    if a != [] && b != [] && a[0] == b[0] {
      LessTotal(a[1..], b[1..]);
      if a[1..] == b[1..] {
        assert a == [a[0]] + a[1..] && b == [b[0]] + b[1..];
      }
    }
  }

  lemma {:induction false} LessTransitive(a: string, b: string, c: string)
    requires Less(a, b) && Less(b, c)
    ensures Less(a, c)
    decreases |a|
  {
    if a != [] && a[0] == b[0] && b[0] == c[0] {
      LessTransitive(a[1..], b[1..], c[1..]);
    }
  }

  predicate SortedStrings(s: seq<string>)
  {
    forall i, j :: 0 <= i < j < |s| ==> Less(s[i], s[j])
  }

  /** Inserting a new string into a sorted sequence. */
  function Insert(x: string, s: seq<string>): (r: seq<string>)
    requires SortedStrings(s) && x !in s
    ensures SortedStrings(r) && multiset(r) == multiset(s) + multiset{x}
    decreases |s|
  {
    if s == [] then [x]
    else if Less(x, s[0]) then
      assert forall j :: 0 < j < |s| ==> Less(x, s[j]) by {
        forall j | 0 < j < |s| ensures Less(x, s[j]) { LessTransitive(x, s[0], s[j]); }
      }
      [x] + s
    else
      LessTotal(x, s[0]);
      var t := Insert(x, s[1..]);
      assert s == [s[0]] + s[1..];
      assert forall j :: 0 <= j < |t| ==> Less(s[0], t[j]) by {
        forall j | 0 <= j < |t| ensures Less(s[0], t[j]) {
          assert t[j] in multiset(t);
        }
      }
      [s[0]] + t
  }

  predicate Distinct(s: seq<string>)
  {
    forall i, j :: 0 <= i < j < |s| ==> s[i] != s[j]
  }

  /** sorted() on distinct strings: the same strings in increasing order. */
  function Sort(s: seq<string>): (r: seq<string>)
    requires Distinct(s)
    ensures SortedStrings(r) && multiset(r) == multiset(s)
  {
    if s == [] then []
    else
      var t := Sort(s[..|s| - 1]);
      assert s == s[..|s| - 1] + [s[|s| - 1]];
      assert s[|s| - 1] !in multiset(t);
      Insert(s[|s| - 1], t)
  }

  // ---- the attribute dictionary's pure queries ----

  /** The keys of a mapping given as its (key, value) items. */
  function Keys(obj: seq<(string, string)>): set<string>
  {
    set p | p in obj :: p.0
  }

  /** iter_required: the declared attributes whose use is required, in dictionary order. */
  function RequiredOf(names: seq<string>, attrs: map<string, Attribute>): (r: seq<string>)
    ensures forall n :: n in r <==> n in names && n in attrs && attrs[n].use == Required
  {
    if names == [] then []
    else
      var n := names[|names| - 1];
      RequiredOf(names[..|names| - 1], attrs) + (if n in attrs && attrs[n].use == Required then [n] else [])
  }

  /** The value constraint of one declaration: the fixed value, else (with defaults) the default. */
  function Constraint(n: string, a: Attribute, useDefaults: bool): seq<(string, string)>
  {
    if a.fixed.Some? && n != "" then [(n, a.fixed.value)]
    else if useDefaults && a.default.Some? && n != "" then [(n, a.default.value)]
    else []
  }

  /** iter_value_constraints: one (name, value) per declaration with a constraint, in order. */
  function ConstraintsOf(names: seq<string>, attrs: map<string, Attribute>, useDefaults: bool): seq<(string, string)>
  {
    if names == [] then []
    else
      var n := names[|names| - 1];
      ConstraintsOf(names[..|names| - 1], attrs, useDefaults)
        + (if n in attrs then Constraint(n, attrs[n], useDefaults) else [])
  }

  /**
   * Fixed values are preferred to defaults, and without defaults only fixed values appear;
   * every declared non-empty name with a fixed value (or, with defaults, a default) appears.
   */
  lemma {:induction false} ConstraintsMeaning(names: seq<string>, attrs: map<string, Attribute>, useDefaults: bool)
    ensures forall p :: p in ConstraintsOf(names, attrs, useDefaults) ==>
              p.0 in names && p.0 in attrs && p.0 != "" &&
              (if attrs[p.0].fixed.Some? then p.1 == attrs[p.0].fixed.value
               else useDefaults && attrs[p.0].default == Some(p.1))
    ensures forall n :: n in names && n in attrs && n != "" && attrs[n].fixed.Some? ==>
              (n, attrs[n].fixed.value) in ConstraintsOf(names, attrs, useDefaults)
    ensures forall n :: n in names && n in attrs && n != "" && attrs[n].fixed.None? && useDefaults && attrs[n].default.Some? ==>
              (n, attrs[n].default.value) in ConstraintsOf(names, attrs, useDefaults)
    decreases |names|
  {
    if names != [] {
      var init := names[..|names| - 1];
      ConstraintsMeaning(init, attrs, useDefaults);
      assert names == init + [names[|names| - 1]];
    }
  }

  /** The constraint values for the names the input does not have. */
  function Additional(cs: seq<(string, string)>, obj: seq<(string, string)>): (r: seq<(string, string)>)
    ensures forall p :: p in r <==> p in cs && p.0 !in Keys(obj)
  {
    if cs == [] then []
    else Additional(cs[..|cs| - 1], obj) + (if cs[|cs| - 1].0 !in Keys(obj) then [cs[|cs| - 1]] else [])
  }

  /** One error per required name the input does not have, in order. */
  function MissingOf(required: seq<string>, obj: seq<(string, string)>): (r: seq<AttrError>)
    ensures forall e :: e in r <==> e.MissingRequired? && e.name in required && e.name !in Keys(obj)
  {
    if required == [] then []
    else
      var n := required[|required| - 1];
      MissingOf(required[..|required| - 1], obj) + (if n !in Keys(obj) then [MissingRequired(n)] else [])
  }

  /** The loop of raw_decode over the required names: one error per name the input lacks. */
  method MissingErrors(required: seq<string>, obj: seq<(string, string)>) returns (errors: seq<AttrError>)
    ensures errors == MissingOf(required, obj)
  {
    errors := [];
    var i := 0;
    while i < |required|
      invariant 0 <= i <= |required|
      invariant errors == MissingOf(required[..i], obj)
    {
      assert required[..i + 1][..i] == required[..i];
      if required[i] !in Keys(obj) {
        errors := errors + [MissingRequired(required[i])];
      }
      i := i + 1;
    }
    assert required[..i] == required;
  }

  /** fill_missing: a None entry for every declared name the (completed) input does not have. */
  function FillOf(names: seq<string>, full: seq<(string, string)>): (r: seq<(string, AttrItem)>)
    ensures forall p :: p in r <==> p.1 == NoneItem && p.0 in names && p.0 !in Keys(full)
  {
    if names == [] then []
    else
      var n := names[|names| - 1];
      FillOf(names[..|names| - 1], full) + (if n !in Keys(full) then [(n, NoneItem)] else [])
  }

  /** What decoding an input item adds: its errors, and its entry unless the item is empty. */
  datatype Step = Step(errors: seq<AttrError>, entries: seq<(string, AttrItem)>)

  function Entry(name: string, item: AttrItem): seq<(string, AttrItem)>
  {
    if item.EmptyItem? then [] else [(name, item)]
  }

  /** What an attribute group's raw_decode yields: its errors, in order, and its result list. */
  datatype GroupDecoding = GroupDecoding(errors: seq<AttrError>, result: seq<(string, AttrItem)>)

  /**
   * An attribute group (XsdAttributeGroup): a dictionary from names to declarations, in
   * insertion order, and the wildcard the dictionary keeps under the key None.
   */
  class AttributeGroup {
    var names: seq<string>
    var attributes: map<string, Attribute>
    var wildcard: Option<AnyAttribute>

    /** The dictionary keeps each name once, and every declaration under its own name. */
    ghost predicate Valid()
      reads this
    {
      Distinct(names) && (forall n :: n in attributes <==> n in names)
      && forall n :: n in attributes ==> attributes[n].name == n
    }

    constructor ()
      ensures names == [] && attributes == map[] && wildcard.None? && Valid()
    {
      names, attributes, wildcard := [], map[], None;
    }

    /** len(): the number of keys, the wildcard's None included. */
    function Len(): (r: nat)
      reads this
      ensures r == 0 <==> names == [] && wildcard.None?
    {
      |names| + if wildcard.Some? then 1 else 0
    }

    /**
     * XsdAttributeGroup.__setitem__: the value must be named as its key, else the dictionary
     * is left alone and a value error raised; a new name goes last, a known one keeps its place.
     */
    method SetItem(key: Option<string>, value: Decl) returns (r: Result<(), ()>)
      requires Valid()
      modifies this
      ensures Valid()
      ensures r.Err? <==> DeclName(value) != key
      ensures r.Err? ==> names == old(names) && attributes == old(attributes) && wildcard == old(wildcard)
      ensures r.Ok? && key.None? ==>
                wildcard == Some(value.w) && names == old(names) && attributes == old(attributes)
      ensures r.Ok? && key.Some? ==>
                attributes == old(attributes)[key.value := value.a] && wildcard == old(wildcard) &&
                names == if key.value in old(attributes) then old(names) else old(names) + [key.value]
    {
      if DeclName(value) != key {
        return Err(());
      }
      match key {
        case None =>
          wildcard := Some(value.w);
        case Some(n) =>
          if n !in attributes {
            names := names + [n];
          }
          attributes := attributes[n := value.a];
      }
      return Ok(());
    }

    /** XsdAttributeGroup.__delitem__: a missing key is a key error; else the key goes away. */
    method DelItem(key: Option<string>) returns (r: Result<(), ()>)
      requires Valid()
      modifies this
      ensures Valid()
      ensures r.Err? <==> (if key.None? then old(wildcard).None? else key.value !in old(attributes))
      ensures r.Err? ==> names == old(names) && attributes == old(attributes) && wildcard == old(wildcard)
      ensures r.Ok? && key.None? ==> wildcard.None? && names == old(names) && attributes == old(attributes)
      ensures r.Ok? && key.Some? ==>
                attributes == old(attributes) - {key.value} && wildcard == old(wildcard) &&
                |names| == |old(names)| - 1 && forall n :: n in names <==> n in old(names) && n != key.value
    {
      match key {
        case None =>
          if wildcard.None? {
            return Err(());
          }
          wildcard := None;
        case Some(n) =>
          if n !in attributes {
            return Err(());
          }
          var i :| 0 <= i < |names| && names[i] == n;
          assert names == names[..i] + [n] + names[i + 1..];
          DropKeepsDistinct(names, i);
          names := names[..i] + names[i + 1..];
          attributes := attributes - {n};
      }
      return Ok(());
    }

    /**
     * XsdAttributeGroup.__iter__: with a wildcard, the names in sorted order and then None;
     * without one, the names in insertion order.
     */
    function Iter(): (r: seq<Option<string>>)
      requires Valid()
      reads this
      ensures |r| == Len()
      ensures forall k :: k in r <==> (k.None? && wildcard.Some?) || (k.Some? && k.value in names)
      ensures wildcard.Some? ==> r[|r| - 1] == None
      ensures wildcard.Some? ==>
                forall i, j :: 0 <= i < j < |r| - 1 ==> r[i].Some? && r[j].Some? && Less(r[i].value, r[j].value)
      ensures wildcard.None? ==> forall i :: 0 <= i < |r| ==> r[i] == Some(names[i])
    {
      if wildcard.Some? then
        SortedListing(names);
        Somes(Sort(names)) + [None]
      else Somes(names)
    }

    /** iter_required on this group. */
    function RequiredNames(): (r: seq<string>)
      reads this
      ensures forall n :: n in r <==> n in names && n in attributes && attributes[n].use == Required
    {
      RequiredOf(names, attributes)
    }

    /** The input completed with the constraint values for the names it does not have. */
    function Full(obj: seq<(string, string)>, useDefaults: bool): (r: seq<(string, string)>)
      reads this
      ensures |obj| <= |r| && r[..|obj|] == obj
    {
      obj + Additional(ConstraintsOf(names, attributes, useDefaults), obj)
    }

    /**
     * The decoding of one input item: a declared name is decoded by its declaration (a
     * prohibited one is an error unless the wildcard matches it); an XSI name by the global
     * XSI declaration, else the wildcard; any other name by the wildcard, else it is an error.
     */
    function DecodeItem(name: string, value: string, xsi: map<string, Attribute>): (r: Step)
      reads this
      ensures |r.entries| <= 1 && forall p :: p in r.entries ==> p.0 == name
    {
      if name in attributes then
        var a := attributes[name];
        var prohibited := if a.use == Prohibited && (wildcard.None? || !wildcard.value.matches(name))
                          then [ProhibitedUse(name)] else [];
        var d := AttributeDecode(a, Some(value));
        Step(prohibited + d.errors, Entry(name, d.item))
      else if Strs.GetNamespace(name) == XSI_NAMESPACE && name in xsi then
        var d := AttributeDecode(xsi[name], Some(value));
        Step(d.errors, Entry(name, d.item))
      else if wildcard.Some? then
        var d := wildcard.value.decode(name, value);
        Step(Tagged(name, d.reasons), Entry(name, d.item))
      else if Strs.GetNamespace(name) == XSI_NAMESPACE then Step([NotXsiAttribute(name)], [])
      else Step([NotAllowed(name)], [])
    }

    /** The main loop of raw_decode over the input items in order. */
    function ItemsOf(items: seq<(string, string)>, xsi: map<string, Attribute>): (r: Step)
      reads this
    {
      if items == [] then Step([], [])
      else
        var p := ItemsOf(items[..|items| - 1], xsi);
        var last := items[|items| - 1];
        var s := DecodeItem(last.0, last.1, xsi);
        Step(p.errors + s.errors, p.entries + s.entries)
    }

    /** XsdAttributeGroup.raw_decode, with the errors collected as in lax mode. */
    function GroupDecode(obj: seq<(string, string)>, xsi: map<string, Attribute>, useDefaults: bool, fillMissing: bool): GroupDecoding
      reads this
    {
      if obj == [] && Len() == 0 then GroupDecoding([], [])
      else
        var full := Full(obj, useDefaults);
        var s := ItemsOf(full, xsi);
        GroupDecoding(MissingOf(RequiredNames(), obj) + s.errors,
                      s.entries + (if fillMissing then FillOf(names, full) else []))
    }

    /**
     * XsdAttributeGroup.raw_decode: one error per missing required attribute, the constraint
     * values added for the absent names, every item decoded in order, then the missing names
     * filled with None when asked to.
     */
    method RawDecode(obj: seq<(string, string)>, xsi: map<string, Attribute>, useDefaults: bool, fillMissing: bool)
      returns (r: GroupDecoding)
      ensures r == GroupDecode(obj, xsi, useDefaults, fillMissing)
    {
      if obj == [] && names == [] && wildcard.None? {
        return GroupDecoding([], []);
      }
      var missing := MissingErrors(RequiredNames(), obj);
      var full := Full(obj, useDefaults);
      var items := DecodeItems(full, xsi);
      var fill := if fillMissing then FillOf(names, full) else [];
      r := GroupDecoding(missing + items.errors, items.entries + fill);
    }

    /** The kinds of error decoding one item can report, and the name they are about. */
    lemma DecodeItemErrors(name: string, value: string, xsi: map<string, Attribute>)
      ensures forall e :: e in DecodeItem(name, value, xsi).errors ==>
                (e.ProhibitedUse? && e.name == name && name in attributes && attributes[name].use == Prohibited
                   && (wildcard.None? || !wildcard.value.matches(name)))
                || (e.NotXsiAttribute? && e.name == name) || (e.NotAllowed? && e.name == name)
                || e.FixedMismatch? || e.InvalidValue? || IsNotationError(e)
    {
      if name in attributes {
        AttributeDecodeMeaning(attributes[name], Some(value));
      } else if Strs.GetNamespace(name) == XSI_NAMESPACE && name in xsi {
        AttributeDecodeMeaning(xsi[name], Some(value));
      } else if wildcard.Some? {
        var d := wildcard.value.decode(name, value);
        assert forall e :: e in Tagged(name, d.reasons) ==> e.InvalidValue?;
      }
    }

    /** The errors and the entries of one item are among those of the loop. */
    lemma {:induction false} ItemInLoop(items: seq<(string, string)>, xsi: map<string, Attribute>, i: nat)
      requires i < |items|
      ensures forall e :: e in DecodeItem(items[i].0, items[i].1, xsi).errors ==> e in ItemsOf(items, xsi).errors
      ensures forall p :: p in DecodeItem(items[i].0, items[i].1, xsi).entries ==> p in ItemsOf(items, xsi).entries
      decreases |items|
    {
      var init := items[..|items| - 1];
      if i < |init| {
        ItemInLoop(init, xsi, i);
        assert items[i] == init[i];
      }
    }

    /** An error of the loop comes from one of the items. */
    lemma {:induction false} ErrorSource(items: seq<(string, string)>, xsi: map<string, Attribute>, e: AttrError)
      returns (i: nat)
      requires e in ItemsOf(items, xsi).errors
      ensures i < |items| && e in DecodeItem(items[i].0, items[i].1, xsi).errors
      decreases |items|
    {
      var init := items[..|items| - 1];
      var last := items[|items| - 1];
      if e in DecodeItem(last.0, last.1, xsi).errors {
        i := |items| - 1;
      } else {
        i := ErrorSource(init, xsi, e);
        assert items[i] == init[i];
      }
    }

    /** An entry of the loop comes from one of the items. */
    lemma {:induction false} EntrySource(items: seq<(string, string)>, xsi: map<string, Attribute>, p: (string, AttrItem))
      returns (i: nat)
      requires p in ItemsOf(items, xsi).entries
      ensures i < |items| && p in DecodeItem(items[i].0, items[i].1, xsi).entries
      decreases |items|
    {
      var init := items[..|items| - 1];
      var last := items[|items| - 1];
      if p in DecodeItem(last.0, last.1, xsi).entries {
        i := |items| - 1;
      } else {
        i := EntrySource(init, xsi, p);
        assert items[i] == init[i];
      }
    }

    /**
     * raw_decode reports a missing required attribute exactly for each required declaration
     * whose name the input does not have, and only those, before any other error.
     */
    lemma MissingRequiredReported(obj: seq<(string, string)>, xsi: map<string, Attribute>, useDefaults: bool, fillMissing: bool)
      ensures forall n :: MissingRequired(n) in GroupDecode(obj, xsi, useDefaults, fillMissing).errors <==>
                n in names && n in attributes && attributes[n].use == Required && n !in Keys(obj)
      ensures obj != [] || Len() != 0 ==>
                GroupDecode(obj, xsi, useDefaults, fillMissing).errors[..|MissingOf(RequiredNames(), obj)|] == MissingOf(RequiredNames(), obj)
    {
      if !(obj == [] && Len() == 0) {
        var full := Full(obj, useDefaults);
        forall e | e in ItemsOf(full, xsi).errors ensures !e.MissingRequired? {
          var i := ErrorSource(full, xsi, e);
          DecodeItemErrors(full[i].0, full[i].1, xsi);
        }
        var m := MissingOf(RequiredNames(), obj);
        assert (m + ItemsOf(full, xsi).errors)[..|m|] == m;
      }
    }

    /**
     * An undeclared name outside the XSI namespace, with no wildcard, is reported as not
     * allowed and left out of the result.
     */
    lemma UnknownAttributeRejected(obj: seq<(string, string)>, xsi: map<string, Attribute>, useDefaults: bool,
                                   fillMissing: bool, name: string)
      requires Valid()
      requires name in Keys(obj) && name !in attributes && wildcard.None? && Strs.GetNamespace(name) != XSI_NAMESPACE
      ensures NotAllowed(name) in GroupDecode(obj, xsi, useDefaults, fillMissing).errors
      ensures forall p :: p in GroupDecode(obj, xsi, useDefaults, fillMissing).result ==> p.0 != name
    {
      var full := Full(obj, useDefaults);
      var v :| (name, v) in obj;
      var k :| 0 <= k < |obj| && obj[k] == (name, v);
      assert full[k] == (name, v);
      ItemInLoop(full, xsi, k);
      assert NotAllowed(name) in DecodeItem(name, v, xsi).errors;
      forall p | p in ItemsOf(full, xsi).entries ensures p.0 != name {
        var i := EntrySource(full, xsi, p);
      }
    }

    /**
     * A declared prohibited attribute in the input is reported exactly when there is no
     * wildcard or the wildcard does not match its name.
     */
    lemma ProhibitedReported(obj: seq<(string, string)>, xsi: map<string, Attribute>, useDefaults: bool,
                             fillMissing: bool, name: string)
      requires name in Keys(obj) && name in attributes && attributes[name].use == Prohibited
      ensures ProhibitedUse(name) in GroupDecode(obj, xsi, useDefaults, fillMissing).errors <==>
                wildcard.None? || !wildcard.value.matches(name)
    {
      if wildcard.None? || !wildcard.value.matches(name) {
        ProhibitedFound(obj, xsi, useDefaults, fillMissing, name);
      } else {
        ProhibitedAllowed(obj, xsi, useDefaults, fillMissing, name);
      }
    }

    lemma ProhibitedFound(obj: seq<(string, string)>, xsi: map<string, Attribute>, useDefaults: bool,
                          fillMissing: bool, name: string)
      requires name in Keys(obj) && name in attributes && attributes[name].use == Prohibited
      requires wildcard.None? || !wildcard.value.matches(name)
      ensures ProhibitedUse(name) in GroupDecode(obj, xsi, useDefaults, fillMissing).errors
    {
      var full := Full(obj, useDefaults);
      var v :| (name, v) in obj;
      var k :| 0 <= k < |obj| && obj[k] == (name, v);
      assert full[k] == (name, v);
      ItemInLoop(full, xsi, k);
      assert ProhibitedUse(name) in DecodeItem(name, v, xsi).errors;
    }

    lemma ProhibitedAllowed(obj: seq<(string, string)>, xsi: map<string, Attribute>, useDefaults: bool,
                            fillMissing: bool, name: string)
      requires name in attributes && wildcard.Some? && wildcard.value.matches(name)
      ensures ProhibitedUse(name) !in GroupDecode(obj, xsi, useDefaults, fillMissing).errors
    {
      var full := Full(obj, useDefaults);
      var e := ProhibitedUse(name);
      if e in ItemsOf(full, xsi).errors {
        var i := ErrorSource(full, xsi, e);
        DecodeItemErrors(full[i].0, full[i].1, xsi);
      }
    }

    /** The value constraint raw_decode adds for a declared name: the fixed value, else the default. */
    function ConstraintValue(name: string): string
      requires name in attributes
      reads this
    {
      var a := attributes[name];
      if a.fixed.Some? then a.fixed.value else a.default.GetOr("")
    }

    /**
     * The input is completed with the constraint value of every declared name it lacks: the
     * fixed value, else (with defaults) the default; without defaults only fixed values are added.
     */
    lemma ConstraintValueAdded(obj: seq<(string, string)>, useDefaults: bool, name: string)
      requires Valid()
      requires name in attributes && name != "" && name !in Keys(obj)
      requires attributes[name].fixed.Some? || (useDefaults && attributes[name].default.Some?)
      ensures (name, ConstraintValue(name)) in Full(obj, useDefaults)
      ensures !useDefaults ==> forall p :: p in Full(obj, useDefaults)[|obj|..] ==>
                p.0 in attributes && attributes[p.0].fixed == Some(p.1)
    {
      var cs := ConstraintsOf(names, attributes, useDefaults);
      ConstraintsMeaning(names, attributes, useDefaults);
      assert (name, ConstraintValue(name)) in cs;
      var full := Full(obj, useDefaults);
      assert full[|obj|..] == Additional(cs, obj);
    }

    /** The added constraint value is decoded like a given one, and its item is in the result. */
    lemma ConstraintValueDecoded(obj: seq<(string, string)>, xsi: map<string, Attribute>, useDefaults: bool,
                                 fillMissing: bool, name: string)
      requires Valid()
      requires name in attributes && name != "" && name !in Keys(obj)
      requires attributes[name].fixed.Some? || (useDefaults && attributes[name].default.Some?)
      ensures AttributeDecode(attributes[name], Some(ConstraintValue(name))).item.EmptyItem? ||
              (name, AttributeDecode(attributes[name], Some(ConstraintValue(name))).item)
                in GroupDecode(obj, xsi, useDefaults, fillMissing).result
    {
      var v := ConstraintValue(name);
      ConstraintValueAdded(obj, useDefaults, name);
      var full := Full(obj, useDefaults);
      var i :| 0 <= i < |full| && full[i] == (name, v);
      ItemInLoop(full, xsi, i);
      assert obj != [] || Len() != 0;
      var d := DecodeItem(name, v, xsi);
      assert d.entries == Entry(name, AttributeDecode(attributes[name], Some(v)).item);
      assert d == DecodeItem(full[i].0, full[i].1, xsi);
      var entries := ItemsOf(full, xsi).entries;
      var fill := if fillMissing then FillOf(names, full) else [];
      assert GroupDecode(obj, xsi, useDefaults, fillMissing).result == entries + fill;
      var item := AttributeDecode(attributes[name], Some(v)).item;
      if !item.EmptyItem? {
        assert (name, item) in d.entries;
        assert (name, item) in entries;
      }
    }

    /**
     * With fill_missing, every declared name the completed input lacks gets a None entry;
     * without it, the result holds only the decoded items.
     */
    lemma FillMissingMeaning(obj: seq<(string, string)>, xsi: map<string, Attribute>, useDefaults: bool, fillMissing: bool)
      requires Valid()
      ensures fillMissing ==> forall n :: n in names && n !in Keys(Full(obj, useDefaults)) ==>
                (n, NoneItem) in GroupDecode(obj, xsi, useDefaults, fillMissing).result
      ensures !fillMissing && (obj != [] || Len() != 0) ==>
                GroupDecode(obj, xsi, useDefaults, fillMissing).result == ItemsOf(Full(obj, useDefaults), xsi).entries
    {
    }

    /** The loop over the input items of raw_decode. */
    method DecodeItems(full: seq<(string, string)>, xsi: map<string, Attribute>) returns (r: Step)
      ensures r == ItemsOf(full, xsi)
    {
      var errors: seq<AttrError> := [];
      var result: seq<(string, AttrItem)> := [];
      var j := 0;
      while j < |full|
        invariant 0 <= j <= |full|
        invariant Step(errors, result) == ItemsOf(full[..j], xsi)
      {
        var step := DecodeItem(full[j].0, full[j].1, xsi);
        assert full[..j + 1][..j] == full[..j];
        errors := errors + step.errors;
        result := result + step.entries;
        j := j + 1;
      }
      assert full[..j] == full;
      return Step(errors, result);
    }
  }

  /** Distinct names in sorted order, then None: what iterating a group with a wildcard yields. */
  lemma SortedListing(names: seq<string>)
    requires Distinct(names)
    ensures var r := Somes(Sort(names)) + [None];
            |r| == |names| + 1 && r[|r| - 1] == None
            && (forall k :: k in r <==> k.None? || (k.Some? && k.value in names))
            && forall i, j :: 0 <= i < j < |r| - 1 ==> r[i].Some? && r[j].Some? && Less(r[i].value, r[j].value)
  {
    SortKeepsNames(names);
    SomesMembers(Sort(names));
  }

  lemma SortKeepsNames(names: seq<string>)
    requires Distinct(names)
    ensures |Sort(names)| == |names|
    ensures forall n :: n in Sort(names) <==> n in names
  {
    var s := Sort(names);
    assert |s| == |multiset(s)| == |multiset(names)| == |names|;
    forall n ensures n in s <==> n in names {
      assert n in s <==> n in multiset(s);
      assert n in names <==> n in multiset(names);
    }
  }

  lemma SomesMembers(s: seq<string>)
    ensures forall k: Option<string> :: k in Somes(s) <==> k.Some? && k.value in s
  {
    forall k: Option<string> | k.Some? && k.value in s ensures k in Somes(s) {
      var i :| 0 <= i < |s| && s[i] == k.value;
      assert Somes(s)[i] == k;
    }
  }

  /** The names as dictionary keys. */
  function Somes(s: seq<string>): (r: seq<Option<string>>)
    ensures |r| == |s| && forall i :: 0 <= i < |s| ==> r[i] == Some(s[i])
  {
    if s == [] then [] else [Some(s[0])] + Somes(s[1..])
  }

  lemma DropKeepsDistinct(s: seq<string>, i: nat)
    requires Distinct(s) && i < |s|
    ensures Distinct(s[..i] + s[i + 1..])
    ensures |s[..i] + s[i + 1..]| == |s| - 1
    ensures forall n :: n in s[..i] + s[i + 1..] <==> n in s && n != s[i]
  {
    var t := s[..i] + s[i + 1..];
    forall a, b | 0 <= a < b < |t| ensures t[a] != t[b] {
      var a' := if a < i then a else a + 1;
      var b' := if b < i then b else b + 1;
      assert t[a] == s[a'] && t[b] == s[b'];
    }
    forall n ensures n in t <==> n in s && n != s[i] {
      if n in s && n != s[i] {
        var k :| 0 <= k < |s| && s[k] == n;
        assert k != i;
        if k < i { assert t[k] == n; } else { assert t[k - 1] == n; }
      }
      if n in t {
        var k :| 0 <= k < |t| && t[k] == n;
        var k' := if k < i then k else k + 1;
        assert s[k'] == n && k' != i;
      }
    }
  }
}
