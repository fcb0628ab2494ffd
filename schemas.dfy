// The schema-level policies: QName resolution against the namespace map, the vc:minVersion /
// vc:maxVersion filter of conditional inclusion, and the shaping of decode/encode results.
module Schemas {
  import opened Wrappers
  import opened Strs
  import opened Validation
  import opened XsdBase

  const XSD_NAMESPACE := "http://www.w3.org/2001/XMLSchema"
  const XSI_NAMESPACE := "http://www.w3.org/2001/XMLSchema-instance"

  // ---- QName resolution ----

  /** s.split(c): the pieces between the occurrences of c, one more than there are occurrences. */
  function SplitChar(s: string, c: char): (r: seq<string>)
    ensures |r| >= 1
    ensures forall k :: 0 <= k < |r| ==> c !in r[k]
  {
    if s == [] then [[]]
    else
      var rest := SplitChar(s[1..], c);
      if s[0] == c then [[]] + rest else [[s[0]] + rest[0]] + rest[1..]
  }

  /** Splitting and joining again with the separator gives the string back. */
  lemma {:induction false} SplitCharJoin(s: string, c: char)
    ensures Join(SplitChar(s, c), [c]) == s
  {
    if s != [] {
      var rest := SplitChar(s[1..], c);
      SplitCharJoin(s[1..], c);
      if s[0] == c {
        assert SplitChar(s, c)[1..] == rest;
        assert Join(SplitChar(s, c), [c]) == [] + [c] + Join(rest, [c]);
      } else {
        var first := [s[0]] + rest[0];
        assert SplitChar(s, c) == [first] + rest[1..];
        if |rest| == 1 {
          assert Join(rest, [c]) == rest[0];
        } else {
          assert Join(rest, [c]) == rest[0] + [c] + Join(rest[1..], [c]);
          assert (SplitChar(s, c))[1..] == rest[1..];
        }
      }
    }
  }

  /** A string without the separator is one piece. */
  lemma {:induction false} SplitCharNone(s: string, c: char)
    requires c !in s
    ensures SplitChar(s, c) == [s]
  {
    if s != [] {
      SplitCharNone(s[1..], c);
      assert [s[0]] + s[1..] == s;
    }
  }

  /** a + [c] + b splits into a and b when neither holds c. */
  lemma {:induction false} SplitCharPair(a: string, b: string, c: char)
    requires c !in a && c !in b
    ensures SplitChar(a + [c] + b, c) == [a, b]
  {
    if a == [] {
      assert ([] + [c] + b)[1..] == b;
      SplitCharNone(b, c);
    } else {
      assert (a + [c] + b)[1..] == a[1..] + [c] + b;
      SplitCharPair(a[1..], b, c);
      assert [a[0]] + a[1..] == a;
    }
  }

  datatype QNameError = QNameValueError | PrefixNotFound(prefix: string) | NamespaceNotImported

  /** What resolve_qname reads of the schema: its namespace map, target namespace and imports. */
  datatype SchemaNames = SchemaNames(namespaces: map<string, string>, targetNamespace: string,
                                     importedNamespaces: set<string>, hasMetaSchema: bool)

  /** The namespace and local name a stripped QName stands for, before the import checks. */
  function SplitQName(q: string, names: SchemaNames, qnameValid: bool): (r: Result<(string, string), QNameError>)
    requires q != []
  {
    if q[0] == '{' then
      var parts := SplitChar(q[1..], '}');
      if |parts| != 2 then Err(QNameValueError) else Ok((parts[0], parts[1]))
    else if !qnameValid then Err(QNameValueError)
    else if ':' in q then
      var parts := SplitChar(q, ':');
      if |parts| != 2 then Err(QNameValueError)
      else if parts[0] !in names.namespaces then Err(PrefixNotFound(parts[0]))
      else Ok((names.namespaces[parts[0]], parts[1]))
    else Ok((if "" in names.namespaces then names.namespaces[""] else "", q))
  }

  /**
   * XMLSchemaBase.resolve_qname. The name is stripped; an empty name or one holding a space,
   * tab or newline is invalid. '{ns}local' is split at its one '}', 'prefix:local' maps the
   * prefix through the namespace map, and a bare local name takes the default namespace. The
   * result is '{ns}local', or the local name when there is no namespace; a namespace the
   * schema neither targets nor imports is an error when imports are checked. Whether a
   * name that is not in '{ns}local' form passes the xs:QName syntax check is `qnameValid`.
   */
  function ResolveQName(qname: string, names: SchemaNames, namespaceImported: bool, qnameValid: bool): (r: Result<string, QNameError>)
    ensures r.Ok? ==> Strip(qname) != [] && ' ' !in Strip(qname) && '\t' !in Strip(qname) && '\n' !in Strip(qname)
    ensures Strip(qname) == [] ==> r == Err(QNameValueError)
    ensures r.Ok? ==> SplitQName(Strip(qname), names, qnameValid).Ok? &&
                      var (ns, local) := SplitQName(Strip(qname), names, qnameValid).value;
                      r.value == (if ns == "" then local else "{" + ns + "}" + local)
    ensures Strip(qname) != [] && SplitQName(Strip(qname), names, qnameValid).Err? ==> r.Err?
    ensures r == Err(NamespaceNotImported) <==>
              var q := Strip(qname);
              q != [] && ' ' !in q && '\t' !in q && '\n' !in q && SplitQName(q, names, qnameValid).Ok?
              && namespaceImported && !ImportAdmitted(SplitQName(q, names, qnameValid).value.0, names)
  {
    var q := Strip(qname);
    if q == [] || ' ' in q || '\t' in q || '\n' in q then Err(QNameValueError)
    else match SplitQName(q, names, qnameValid)
      case Err(e) => Err(e)
      case Ok((ns, local)) =>
        if ns == "" then
          if namespaceImported && names.targetNamespace != "" && "" !in names.importedNamespaces then Err(NamespaceNotImported)
          else Ok(local)
        else if namespaceImported && names.hasMetaSchema && ns != names.targetNamespace
                && ns !in {XSD_NAMESPACE, XSI_NAMESPACE} && ns !in names.importedNamespaces then Err(NamespaceNotImported)
        else Ok("{" + ns + "}" + local)
  }

  /**
   * The namespace ns passes the import checks of resolve_qname: no namespace needs an import
   * without a namespace when there is a target namespace; another one, with a meta-schema,
   * is the target, the XSD or the XSI namespace, or an imported one.
   */
  predicate ImportAdmitted(ns: string, names: SchemaNames)
  {
    if ns == "" then names.targetNamespace == "" || "" in names.importedNamespaces
    else NamespaceAdmitted(ns, names)
  }

  /** The checks of resolve_qname never fail on the XSD and XSI namespaces nor on the target one. */
  predicate NamespaceAdmitted(ns: string, names: SchemaNames)
  {
    !names.hasMetaSchema || ns == names.targetNamespace || ns in {XSD_NAMESPACE, XSI_NAMESPACE} || ns in names.importedNamespaces
  }

  lemma NoSpaceConcat(a: string, b: string)
    requires NoSpace(a) && NoSpace(b)
    ensures NoSpace(a + b)
  {
    forall i | 0 <= i < |a + b| ensures !IsSpace((a + b)[i]) {
      if i < |a| {
        assert (a + b)[i] == a[i];
      } else {
        assert (a + b)[i] == b[i - |a|];
      }
    }
  }

  /** A string without whitespace is its own strip and holds no blank, tab nor newline. */
  lemma StripOfNoSpace(q: string)
    requires NoSpace(q)
    ensures Strip(q) == q && ' ' !in q && '\t' !in q && '\n' !in q
  {
    assert q == [] || !IsSpace(q[0]);
    assert LStrip(q) == q;
    assert q == [] || !IsSpace(q[|q| - 1]);
    assert RStrip(q) == q;
  }

  lemma SplitExpanded(ns: string, local: string, names: SchemaNames, valid: bool)
    requires '}' !in ns && '}' !in local
    ensures SplitQName("{" + ns + "}" + local, names, valid) == Ok((ns, local))
  {
    var q := "{" + ns + "}" + local;
    assert q[1..] == ns + ['}'] + local;
    SplitCharPair(ns, local, '}');
  }

  /** An expanded name resolves to itself: resolution of a resolved name changes nothing. */
  lemma ResolveExpanded(ns: string, local: string, names: SchemaNames, imp: bool, valid: bool)
    requires ns != [] && NoSpace(ns) && NoSpace(local) && '}' !in ns && '}' !in local
    requires NamespaceAdmitted(ns, names)
    ensures ResolveQName("{" + ns + "}" + local, names, imp, valid) == Ok("{" + ns + "}" + local)
  {
    var q := "{" + ns + "}" + local;
    NoSpaceConcat("{", ns);
    NoSpaceConcat("{" + ns, "}");
    NoSpaceConcat("{" + ns + "}", local);
    SplitExpanded(ns, local, names, valid);
    ResolveClean(q, ns, local, names, imp, valid);
  }

  lemma ResolveClean(q: string, ns: string, local: string, names: SchemaNames, imp: bool, valid: bool)
    requires NoSpace(q) && q != [] && ns != [] && NamespaceAdmitted(ns, names)
    requires SplitQName(q, names, valid) == Ok((ns, local))
    ensures ResolveQName(q, names, imp, valid) == Ok("{" + ns + "}" + local)
  {
    StripOfNoSpace(q);
  }

  /** A declared prefix maps to its namespace; an undeclared one is a key error. */
  lemma ResolvePrefixed(prefix: string, local: string, names: SchemaNames, imp: bool)
    requires prefix != [] && prefix[0] != '{' && NoSpace(prefix) && NoSpace(local) && ':' !in prefix && ':' !in local
    ensures prefix !in names.namespaces ==> ResolveQName(prefix + ":" + local, names, imp, true) == Err(PrefixNotFound(prefix))
    ensures prefix in names.namespaces && names.namespaces[prefix] != "" && NamespaceAdmitted(names.namespaces[prefix], names) ==>
              ResolveQName(prefix + ":" + local, names, imp, true) == Ok("{" + names.namespaces[prefix] + "}" + local)
  {
    var q := prefix + ":" + local;
    SplitCharPair(prefix, local, ':');
    assert q[0] == prefix[0];
    assert q[|prefix|] == ':';
    NoSpaceConcat(prefix, ":");
    NoSpaceConcat(prefix + ":", local);
    StripOfNoSpace(q);
  }

  // ---- conditional inclusion (vc:minVersion and vc:maxVersion) ----

  predicate IsDigit(c: char) { '0' <= c <= '9' }

  predicate Digits(s: string) { |s| > 0 && forall i :: 0 <= i < |s| ==> IsDigit(s[i]) }

  /**
   * XSD_VERSION_PATTERN, '^\d+\.\d+$' under re.match: digits, a dot, digits, where '$' also
   * matches before one final newline.
   */
  predicate VersionForm(s: string)
  {
    var t := if |s| > 0 && s[|s| - 1] == '\n' then s[..|s| - 1] else s;
    var parts := SplitChar(t, '.');
    |parts| == 2 && Digits(parts[0]) && Digits(parts[1])
  }

  /** Python's < on strings: the first differing character decides, and a proper prefix is smaller. */
  function StrLess(a: string, b: string): bool
  {
    if a == [] then b != []
    else if b == [] then false
    else if a[0] != b[0] then a[0] < b[0]
    else StrLess(a[1..], b[1..])
  }

  /** Python's < on strings is a strict order. */
  lemma {:induction false} StrLessAsymmetric(a: string, b: string)
    ensures StrLess(a, b) ==> !StrLess(b, a) && a != b
  {
    if a != [] && b != [] && a[0] == b[0] {
      StrLessAsymmetric(a[1..], b[1..]);
    }
  }

  /** The source's two XSD versions. */
  predicate KnownVersion(v: string) { v == "1.0" || v == "1.1" }

  /**
   * The vc:minVersion / vc:maxVersion test of version_check as written: an attribute out of
   * the version form is ignored; otherwise the element is incompatible when the minimum is
   * above the processor's version or the maximum not above it, comparing the strings.
   */
  function VcCompatibleAsWritten(min: Option<string>, max: Option<string>, version: string): (r: bool)
    ensures r <==> (min.None? || !VersionForm(min.value) || !StrLess(version, min.value))
                   && (max.None? || !VersionForm(max.value) || StrLess(version, max.value))
  {
    if min.Some? && VersionForm(min.value) && StrLess(version, min.value) then false
    else if max.Some? && VersionForm(max.value) && !StrLess(version, max.value) then false
    else true
  }

  /** vc:minVersion="1.10" excludes an element on an XSD 1.1 processor, though 1.10 and 1.1 are the same decimal. */
  lemma TrailingZeroExcludes()
    ensures VersionForm("1.10") && VersionForm("1.1")
    ensures !VcCompatibleAsWritten(Some("1.10"), None, "1.1")
    ensures VcCompatibleAsWritten(Some("1.1"), None, "1.1")
    ensures VcCompatibleAsWritten(None, Some("1.10"), "1.1") && !VcCompatibleAsWritten(None, Some("1.1"), "1.1")
  {
    SplitCharPair("1", "10", '.');
    SplitCharPair("1", "1", '.');
    assert "1" + ['.'] + "10" == "1.10";
    assert "1" + ['.'] + "1" == "1.1";
  }

  /** The value of a string of digits. */
  function DigitsValue(s: string): (r: nat)
    requires forall i :: 0 <= i < |s| ==> IsDigit(s[i])
  {
    if s == [] then 0
    else
      assert IsDigit(s[|s| - 1]);
      DigitsValue(s[..|s| - 1]) * 10 + (s[|s| - 1] as int - '0' as int)
  }

  function Pow10(n: nat): (r: nat)
    ensures r >= 1
  {
    if n == 0 then 1 else 10 * Pow10(n - 1)
  }

  /** A decimal as a numerator over a power of ten. */
  datatype Decimal = Decimal(num: nat, scale: nat)

  /** The decimal a string of the version form stands for. */
  function DecimalOf(s: string): (r: Decimal)
    requires VersionForm(s)
  {
    var t := if |s| > 0 && s[|s| - 1] == '\n' then s[..|s| - 1] else s;
    var parts := SplitChar(t, '.');
    Decimal(DigitsValue(parts[0]) * Pow10(|parts[1]|) + DigitsValue(parts[1]), |parts[1]|)
  }

  /** a < b as rational numbers. */
  predicate DecLess(a: Decimal, b: Decimal)
  {
    a.num * Pow10(b.scale) < b.num * Pow10(a.scale)
  }

  /**
   * The vc:minVersion / vc:maxVersion test comparing decimal values, as conditional inclusion
   * in section 4.2.2 of XML Schema 1.1 Part 1 defines it: the processor's version must be at
   * least the minimum and below the maximum.
   */
  function VcCompatible(min: Option<string>, max: Option<string>, version: string): (r: bool)
    requires KnownVersion(version)
    ensures r <==> (min.None? || !VersionForm(min.value) || !DecLess(VersionDecimal(version), DecimalOf(min.value)))
                   && (max.None? || !VersionForm(max.value) || DecLess(VersionDecimal(version), DecimalOf(max.value)))
  {
    var v := VersionDecimal(version);
    if min.Some? && VersionForm(min.value) && DecLess(v, DecimalOf(min.value)) then false
    else if max.Some? && VersionForm(max.value) && !DecLess(v, DecimalOf(max.value)) then false
    else true
  }

  function VersionDecimal(version: string): (r: Decimal)
    requires KnownVersion(version)
    ensures r == Decimal(if version == "1.0" then 10 else 11, 1)
  {
    if version == "1.0" then Decimal(10, 1) else Decimal(11, 1)
  }

  /** A trailing zero in the fraction scales numerator and denominator alike. */
  lemma {:induction false} TrailingZeroValue(a: string, b: string)
    requires Digits(a) && Digits(b)
    ensures VersionForm(a + "." + b) && VersionForm(a + "." + b + "0")
    ensures DecimalOf(a + "." + b + "0") == Decimal(10 * DecimalOf(a + "." + b).num, DecimalOf(a + "." + b).scale + 1)
  {
    var s := a + "." + b;
    var s0 := a + "." + (b + "0");
    assert s0 == a + "." + b + "0";
    assert '.' !in a && '.' !in b && '.' !in b + "0" by {
      assert forall i :: 0 <= i < |a| ==> a[i] != '.';
      assert forall i :: 0 <= i < |b| ==> b[i] != '.';
      assert forall i :: 0 <= i < |b + "0"| ==> (b + "0")[i] != '.' by {
        forall i | 0 <= i < |b + "0"| ensures (b + "0")[i] != '.' {
          if i < |b| { assert (b + "0")[i] == b[i]; }
        }
      }
    }
    assert s == a + ['.'] + b;
    assert s0 == a + ['.'] + (b + "0");
    SplitCharPair(a, b, '.');
    SplitCharPair(a, b + "0", '.');
    assert s[|s| - 1] != '\n' by {
      assert s[|s| - 1] == b[|b| - 1];
    }
    assert s0[|s0| - 1] == '0';
    assert (b + "0")[..|b|] == b;
    assert DigitsValue(b + "0") == DigitsValue(b) * 10;
    var x := DigitsValue(a);
    var y := DigitsValue(b);
    var p := Pow10(|b|);
    calc {
      x * Pow10(|b| + 1) + y * 10;
      x * (10 * p) + y * 10;
      { assert x * (10 * p) == 10 * (x * p); }
      10 * (x * p + y);
    }
  }

  lemma ScaledLess(n: nat, s: nat, d: Decimal)
    ensures DecLess(Decimal(10 * n, s + 1), d) <==> DecLess(Decimal(n, s), d)
    ensures DecLess(d, Decimal(10 * n, s + 1)) <==> DecLess(d, Decimal(n, s))
  {
    var p := Pow10(d.scale);
    var q := Pow10(s);
    assert Pow10(s + 1) == 10 * q;
    assert (10 * n) * p == 10 * (n * p);
    assert d.num * (10 * q) == 10 * (d.num * q);
  }

  /** With decimal comparison a trailing zero in vc:minVersion or vc:maxVersion changes nothing. */
  lemma VcTrailingZero(a: string, b: string, version: string)
    requires Digits(a) && Digits(b) && KnownVersion(version)
    ensures VcCompatible(Some(a + "." + b + "0"), None, version) == VcCompatible(Some(a + "." + b), None, version)
    ensures VcCompatible(None, Some(a + "." + b + "0"), version) == VcCompatible(None, Some(a + "." + b), version)
  {
    TrailingZeroValue(a, b);
    var d := DecimalOf(a + "." + b);
    ScaledLess(d.num, d.scale, VersionDecimal(version));
  }

  /** The corrected filter agrees with the string comparison when every version is a one-digit d.d form. */
  lemma VcAgreesOnOneDigitVersions(x: char, y: char, version: string)
    requires IsDigit(x) && IsDigit(y) && KnownVersion(version)
    ensures VcCompatible(Some([x, '.', y]), None, version) == VcCompatibleAsWritten(Some([x, '.', y]), None, version)
  {
    var s := [x, '.', y];
    assert s == [x] + ['.'] + [y];
    SplitCharPair([x], [y], '.');
    assert [x][..0] == [] && [y][..0] == [];
    assert DigitsValue([x]) == x as int - '0' as int;
    assert DigitsValue([y]) == y as int - '0' as int;
    assert VersionForm(s);
    assert DecimalOf(s) == Decimal(10 * (x as int - '0' as int) + (y as int - '0' as int), 1);
    assert StrLess(version, s) <==> version[0] < x || (version[0] == x && StrLess(version[1..], s[1..]));
    assert StrLess(version[1..], s[1..]) <==> StrLess(version[2..], s[2..]);
    assert StrLess(version[2..], s[2..]) <==> version[2] < y || (version[2] == y && StrLess(version[3..], s[3..]));
    assert version[3..] == [] && s[3..] == [];
  }

  /**
   * XMLSchemaBase.version_check, its vc:minVersion / vc:maxVersion part, with the decimal
   * comparison: an attribute out of the version form is a parse error of an XSD 1.1 schema
   * and is otherwise ignored; a failing bound makes the element incompatible. A parse error
   * the schema raises ends the check.
   */
  method VersionCheck(schema: XsdValidator, elem: nat, min: Option<string>, max: Option<string>, version: string)
    returns (r: bool, raised: Option<ParseErr>)
    requires KnownVersion(version)
    modifies schema
    ensures raised.None? ==> r == VcCompatible(min, max, version)
    ensures raised.Some? ==> version == "1.1" && schema.validation == Strict
    ensures version == "1.0" ==> raised.None? && schema.errors == old(schema.errors)
    ensures schema.validation == old(schema.validation) && schema.elem == old(schema.elem)
    ensures schema.validation != Lax ==> schema.errors == old(schema.errors)
  {
    var v := VersionDecimal(version);
    if min.Some? {
      if !VersionForm(min.value) {
        if version == "1.1" {
          var o := schema.ParseError(Message("invalid attribute vc:minVersion value"), Some(Element(elem)), None);
          if o.Thrown? {
            return false, Some(o.error);
          }
        }
      } else if DecLess(v, DecimalOf(min.value)) {
        return false, None;
      }
    }
    if max.Some? {
      if !VersionForm(max.value) {
        if version == "1.1" {
          var o := schema.ParseError(Message("invalid attribute vc:maxVersion value"), Some(Element(elem)), None);
          if o.Thrown? {
            return false, Some(o.error);
          }
        }
      } else if !DecLess(v, DecimalOf(max.value)) {
        return false, None;
      }
    }
    return true, None;
  }

  // ---- validate, is_valid, decode and encode ----

  /** XMLSchemaBase.validate over the errors iter_errors yields in strict mode: the first one is raised. */
  function Validate<E>(errors: seq<E>): (r: Option<E>)
    ensures r.None? <==> errors == []
    ensures r.Some? ==> r.value == errors[0]
  {
    if errors == [] then None else Some(errors[0])
  }

  /** XMLSchemaBase.is_valid: iter_errors yields nothing. */
  function IsValid<E>(errors: seq<E>): (r: bool)
    ensures r <==> Validate(errors).None?
  {
    |errors| == 0
  }

  /** What iter_decode and iter_encode yield: a result or a validation error. */
  datatype Item<V, E> = Data(value: V) | Error(error: E)

  /** The results of a decoding or an encoding: none, one unwrapped, or a list of several. */
  datatype Shaped<V> = NoData | One(value: V) | Many(values: seq<V>)

  /** What decode and encode return or raise. Lax mode pairs the data with the errors. */
  datatype Shaping<V, E> = ErrorRaised(error: E) | Plain(data: Shaped<V>) | WithErrors(data: Shaped<V>, errors: seq<E>)

  function DataOf<V, E>(items: seq<Item<V, E>>): (r: seq<V>)
    ensures |r| <= |items|
  {
    if items == [] then []
    else DataOf(items[..|items| - 1]) + (if items[|items| - 1].Data? then [items[|items| - 1].value] else [])
  }

  function ErrorsOf<V, E>(items: seq<Item<V, E>>): (r: seq<E>)
    ensures |r| <= |items|
    ensures |r| + |DataOf(items)| == |items|
  {
    if items == [] then []
    else ErrorsOf(items[..|items| - 1]) + (if items[|items| - 1].Error? then [items[|items| - 1].error] else [])
  }

  /** The shape of the collected data: zero results are None, one is unwrapped, more stay a list. */
  function Shape<V>(data: seq<V>): (r: Shaped<V>)
    ensures r.NoData? <==> data == []
    ensures r.One? <==> |data| == 1
    ensures r.One? ==> r.value == data[0]
    ensures r.Many? ==> r.values == data && |data| >= 2
  {
    if data == [] then NoData else if |data| == 1 then One(data[0]) else Many(data)
  }

  /** The list of results a shape stands for. */
  function Unshape<V>(s: Shaped<V>): seq<V>
  {
    match s
    case NoData => []
    case One(v) => [v]
    case Many(vs) => vs
  }

  /** Shaping loses nothing: the results can be read back from the shape. */
  lemma ShapeRoundTrip<V>(data: seq<V>)
    ensures Unshape(Shape(data)) == data
  {
  }

  /**
   * The result shaping of XMLSchemaBase.decode and encode over what iter_decode or
   * iter_encode yields: strict mode raises the first error, lax mode returns the data with
   * every error, skip mode drops the errors.
   */
  method ShapeResults<V, E>(items: seq<Item<V, E>>, validation: Mode) returns (r: Shaping<V, E>)
    ensures validation == Strict && ErrorsOf(items) != [] ==> r == ErrorRaised(ErrorsOf(items)[0])
    ensures validation == Strict && ErrorsOf(items) == [] ==> r == Plain(Shape(DataOf(items)))
    ensures validation == Lax ==> r == WithErrors(Shape(DataOf(items)), ErrorsOf(items))
    ensures validation == Skip ==> r == Plain(Shape(DataOf(items)))
  {
    var data: seq<V> := [];
    var errors: seq<E> := [];
    var i := 0;
    while i < |items|
      invariant 0 <= i <= |items|
      invariant data == DataOf(items[..i])
      invariant validation == Lax ==> errors == ErrorsOf(items[..i])
      invariant validation == Strict ==> ErrorsOf(items[..i]) == []
      decreases |items| - i
    {
      assert items[..i + 1][..i] == items[..i];
      var item := items[i];
      if item.Data? {
        data := data + [item.value];
      } else if validation == Lax {
        errors := errors + [item.error];
      } else if validation == Strict {
        FirstErrorAt(items, i);
        return ErrorRaised(item.error);
      }
      i := i + 1;
    }
    assert items[..i] == items;
    if validation == Lax {
      return WithErrors(Shape(data), errors);
    }
    return Plain(Shape(data));
  }

  /** An error after an error-free prefix is the first error of the whole sequence. */
  lemma {:induction false} FirstErrorAt<V, E>(items: seq<Item<V, E>>, i: nat)
    requires i < |items| && items[i].Error? && ErrorsOf(items[..i]) == []
    ensures ErrorsOf(items) != [] && ErrorsOf(items)[0] == items[i].error
    decreases |items| - i
  {
    if i == |items| - 1 {
      assert items[..|items| - 1] == items[..i];
    } else {
      assert items[..|items| - 1][..i] == items[..i];
      FirstErrorAt(items[..|items| - 1], i);
    }
  }
}
