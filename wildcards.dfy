// Wildcards of XSD 1.0 and 1.1 (<xs:any>, <xs:anyAttribute>, <xs:openContent>):
// the namespace constraint, its parsing, membership, overlap, restriction,
// union and intersection (section 3.10 of XML Schema 1.1 Part 1).
module Wildcards {
  import opened Wrappers
  import opened Strs
  import opened Particles

  const ANY: string := "##any"
  const OTHER: string := "##other"
  const LOCAL: string := "##local"
  const TARGET: string := "##targetNamespace"
  const DEFINED: string := "##defined"
  const DEFINED_SIBLING: string := "##definedSibling"
  const XSI_NAMESPACE: string := "http://www.w3.org/2001/XMLSchema-instance"

  datatype ProcessContents = Strict | Lax | Skip

  /**
   * A wildcard. `namespace` holds namespace names or one of the keywords ##any and ##other;
   * a non-empty `notNamespace` (XSD 1.1) overrides it. `isElement` and `xsd11` say which of
   * the four wildcard classes (element or attribute, XSD 1.0 or 1.1) the value belongs to.
   */
  datatype Wildcard = Wildcard(
    isElement: bool, xsd11: bool,
    namespace: seq<string>, notNamespace: seq<string>, notQName: seq<string>,
    processContents: ProcessContents, targetNamespace: string)

  /** A namespace constraint alone: the two lists that union and intersection rewrite. */
  datatype NsConstraint = NsConstraint(namespace: seq<string>, notNamespace: seq<string>)

  /** The shapes the parser and the set operations produce. */
  predicate Wf(w: Wildcard)
  {
    (w.namespace == [ANY] || w.namespace == [OTHER] || (ANY !in w.namespace && OTHER !in w.namespace))
    && (w.notNamespace != [] ==> w.namespace == [])
  }

  /** A namespace name that is neither a keyword nor the XSI namespace. */
  predicate PlainNamespace(x: string)
  {
    x != ANY && x != OTHER && x != XSI_NAMESPACE
  }

  predicate NoDup(xs: seq<string>)
  {
    forall i, j :: 0 <= i < j < |xs| ==> xs[i] != xs[j]
  }

  // ---- the list comprehensions of the source ----

  /** [x for x in xs if x in ys] */
  function KeepIn(xs: seq<string>, ys: seq<string>): (r: seq<string>)
    ensures forall x :: x in r <==> x in xs && x in ys
  {
    if xs == [] then [] else (if xs[0] in ys then [xs[0]] else []) + KeepIn(xs[1..], ys)
  }

  /** [x for x in xs if x not in ys] */
  function DropIn(xs: seq<string>, ys: seq<string>): (r: seq<string>)
    ensures forall x :: x in r <==> x in xs && x !in ys
  {
    if xs == [] then [] else (if xs[0] in ys then [] else [xs[0]]) + DropIn(xs[1..], ys)
  }

  /** xs.extend(y for y in ys if y not in xs), the generator seeing the list grow. */
  function ExtendNew(xs: seq<string>, ys: seq<string>): (r: seq<string>)
    ensures forall x :: x in r <==> x in xs || x in ys
    ensures |xs| <= |r| && r[..|xs|] == xs
    decreases |ys|
  {
    if ys == [] then xs else ExtendNew(if ys[0] in xs then xs else xs + [ys[0]], ys[1..])
  }

  /** `if y not in xs: xs.append(y)` */
  function AppendMissing(xs: seq<string>, y: string): (r: seq<string>)
    ensures forall x :: x in r <==> x in xs || x == y
  {
    if y in xs then xs else xs + [y]
  }

  /** `xs.remove(y)`: drops the first occurrence only. */
  function RemoveFirst(xs: seq<string>, y: string): (r: seq<string>)
    requires y in xs
    ensures |r| == |xs| - 1
    ensures NoDup(xs) ==> forall x :: x in r <==> x in xs && x != y
  {
    if xs[0] == y then xs[1..] else [xs[0]] + RemoveFirst(xs[1..], y)
  }

  // ---- membership ----

  /** XsdWildcard.is_namespace_allowed on the two lists and the target namespace. */
  predicate Allows(namespace: seq<string>, notNamespace: seq<string>, tns: string, x: string)
  {
    if notNamespace != [] then x !in notNamespace
    else if ANY in namespace || x == XSI_NAMESPACE then true
    else if OTHER in namespace then x != "" && x != tns
    else x in namespace
  }

  predicate IsNamespaceAllowed(w: Wildcard, x: string)
  {
    Allows(w.namespace, w.notNamespace, w.targetNamespace, x)
  }

  /**
   * XsdWildcard.is_matching: an expanded (or empty) name tests its namespace, a local name
   * tests the empty namespace or the default namespace ("" when there is none).
   */
  function IsMatching(w: Wildcard, name: Option<string>, defaultNamespace: string): (r: bool)
    ensures name.None? ==> !r
    ensures name.Some? && name.value != [] && name.value[0] != '{' && defaultNamespace == "" ==>
              r == IsNamespaceAllowed(w, "")
  {
    match name
    case None => false
    case Some(n) =>
      if n == [] || n[0] == '{' then IsNamespaceAllowed(w, GetNamespace(n))
      else if defaultNamespace == "" then IsNamespaceAllowed(w, "")
      else IsNamespaceAllowed(w, "") || IsNamespaceAllowed(w, defaultNamespace)
  }

  lemma {:induction false} CloseBraceAt(ns: string, local: string, i: nat)
    requires forall j :: 0 <= j < |ns| ==> ns[j] != '}'
    requires 1 <= i <= |ns| + 1
    ensures CloseBrace("{" + ns + "}" + local, i) == ns
    decreases |ns| + 1 - i
  {
    var n := "{" + ns + "}" + local;
    if i <= |ns| {
      assert n[i] == ns[i - 1];
      CloseBraceAt(ns, local, i + 1);
    } else {
      assert n[i] == '}';
      assert n[1..i] == ns;
    }
  }

  /** The namespace of an expanded name '{ns}local' is ns. */
  lemma ExpandedNamespace(ns: string, local: string)
    requires forall j :: 0 <= j < |ns| ==> ns[j] != '}'
    ensures GetNamespace("{" + ns + "}" + local) == ns
  {
    CloseBraceAt(ns, local, 1);
  }

  /** An expanded name matches exactly when its namespace is allowed, whatever the default namespace. */
  lemma MatchingExpandedName(w: Wildcard, ns: string, local: string, defaultNamespace: string)
    requires forall j :: 0 <= j < |ns| ==> ns[j] != '}'
    ensures IsMatching(w, Some("{" + ns + "}" + local), defaultNamespace) == IsNamespaceAllowed(w, ns)
  {
    ExpandedNamespace(ns, local);
  }

  /** XsdWildcard.deny_namespaces: none of the namespaces is allowed. */
  predicate DenyNamespaces(w: Wildcard, namespaces: seq<string>)
  {
    if w.notNamespace != [] then forall i :: 0 <= i < |namespaces| ==> namespaces[i] in w.notNamespace
    else if ANY in w.namespace then false
    else if OTHER in w.namespace then forall i :: 0 <= i < |namespaces| ==> namespaces[i] == w.targetNamespace
    else forall i :: 0 <= i < |namespaces| ==> namespaces[i] !in w.namespace
  }

  /**
   * deny_namespaces denies exactly what is_namespace_allowed rejects, for non-empty lists of
   * plain non-absent namespace names.
   */
  lemma DenyNamespacesMeaning(w: Wildcard, namespaces: seq<string>)
    requires Wf(w) && namespaces != []
    requires forall i :: 0 <= i < |namespaces| ==> PlainNamespace(namespaces[i]) && namespaces[i] != ""
    ensures DenyNamespaces(w, namespaces) <==>
              forall i :: 0 <= i < |namespaces| ==> !IsNamespaceAllowed(w, namespaces[i])
  {
    if w.notNamespace == [] && ANY in w.namespace {
      assert IsNamespaceAllowed(w, namespaces[0]);
    }
  }

  /** Drops the ##defined and ##definedSibling keywords of a notQName list. */
  function QNamesOnly(xs: seq<string>): (r: seq<string>)
    ensures forall x :: x in r <==> x in xs && !StartsWith(x, "##")
  {
    if xs == [] then [] else (if StartsWith(xs[0], "##") then [] else [xs[0]]) + QNamesOnly(xs[1..])
  }

  /** XsdWildcard.deny_qnames: each name is excluded by notQName or by its namespace. */
  predicate DenyQNames(w: Wildcard, names: seq<string>)
  {
    if w.notNamespace != [] then
      forall i :: 0 <= i < |names| ==> names[i] in w.notQName || GetNamespace(names[i]) in w.notNamespace
    else if ANY in w.namespace then
      forall i :: 0 <= i < |names| ==> names[i] in w.notQName
    else if OTHER in w.namespace then
      forall i :: 0 <= i < |names| ==> names[i] in w.notQName || GetNamespace(names[i]) == w.targetNamespace
    else
      forall i :: 0 <= i < |names| ==> names[i] in w.notQName || GetNamespace(names[i]) !in w.namespace
  }

  // ---- parsing ----

  /** The namespace a token of a namespace list stands for; None for an unknown ## keyword. */
  function ListToken(token: string, tns: string): Option<string>
  {
    if token == LOCAL then Some("")
    else if token == TARGET then Some(tns)
    else if StartsWith(token, "##") then None
    else Some(token)
  }

  /** The resolved namespaces of a token list, in order, without the wrong tokens. */
  function ResolvedTokens(tokens: seq<string>, tns: string): (r: seq<string>)
    ensures |r| <= |tokens|
  {
    if tokens == [] then []
    else
      var last := tokens[|tokens| - 1];
      ResolvedTokens(tokens[..|tokens| - 1], tns) + (match ListToken(last, tns) case Some(x) => [x] case None => [])
  }

  /** The wrong tokens of a token list, in order: each one is a parse error. */
  function WrongTokens(tokens: seq<string>, tns: string): seq<string>
  {
    if tokens == [] then []
    else
      var last := tokens[|tokens| - 1];
      WrongTokens(tokens[..|tokens| - 1], tns) + (if ListToken(last, tns).None? then [last] else [])
  }

  /**
   * Every token of a namespace list is either resolved or reported, and the resolved
   * namespaces are exactly the values of the good tokens.
   */
  lemma {:induction false} ResolvedTokensMeaning(tokens: seq<string>, tns: string)
    ensures |ResolvedTokens(tokens, tns)| + |WrongTokens(tokens, tns)| == |tokens|
    ensures forall x :: x in ResolvedTokens(tokens, tns) <==>
              exists k :: 0 <= k < |tokens| && ListToken(tokens[k], tns) == Some(x)
    decreases |tokens|
  {
    if tokens != [] {
      var init := tokens[..|tokens| - 1];
      ResolvedTokensMeaning(init, tns);
      forall x ensures x in ResolvedTokens(tokens, tns) <==>
                         exists k :: 0 <= k < |tokens| && ListToken(tokens[k], tns) == Some(x)
      {
        if x in ResolvedTokens(tokens, tns) {
          if x in ResolvedTokens(init, tns) {
            var k :| 0 <= k < |init| && ListToken(init[k], tns) == Some(x);
            assert tokens[k] == init[k];
          } else {
            assert ListToken(tokens[|tokens| - 1], tns) == Some(x);
          }
        }
        if exists k :: 0 <= k < |tokens| && ListToken(tokens[k], tns) == Some(x) {
          var k :| 0 <= k < |tokens| && ListToken(tokens[k], tns) == Some(x);
          if k < |init| {
            assert init[k] == tokens[k];
          }
        }
      }
    }
  }

  /**
   * XsdWildcard._parse, namespace attribute (absent means ##any): the keyword forms, and
   * for a list each token resolved in order, a parse error for each unknown ## keyword.
   */
  method ParseNamespace(attr: Option<string>, tns: string) returns (namespace: seq<string>, errors: seq<string>)
    ensures var s := Strip(attr.GetOr(ANY));
      if s == ANY then namespace == [ANY] && errors == []
      else if s == "" then namespace == [] && errors == []
      else if s == OTHER then namespace == [OTHER] && errors == []
      else if s == LOCAL then namespace == [""] && errors == []
      else if s == TARGET then namespace == [tns] && errors == []
      else namespace == ResolvedTokens(Words(s), tns) && errors == WrongTokens(Words(s), tns)
  {
    var s := Strip(attr.GetOr(ANY));
    errors := [];
    if s == ANY {
      namespace := [ANY];
    } else if s == "" {
      namespace := [];
    } else if s == OTHER {
      namespace := [s];
    } else if s == LOCAL {
      namespace := [""];
    } else if s == TARGET {
      namespace := [tns];
    } else {
      namespace, errors := ResolveTokens(Words(s), tns);
    }
  }

  /** The token loop of XsdWildcard._parse over a namespace list. */
  method ResolveTokens(tokens: seq<string>, tns: string) returns (namespace: seq<string>, errors: seq<string>)
    ensures namespace == ResolvedTokens(tokens, tns) && errors == WrongTokens(tokens, tns)
  {
    namespace, errors := [], [];
    var i := 0;
    while i < |tokens|
      invariant 0 <= i <= |tokens|
      invariant namespace == ResolvedTokens(tokens[..i], tns)
      invariant errors == WrongTokens(tokens[..i], tns)
    {
      var ns := tokens[i];
      assert tokens[..i + 1][..i] == tokens[..i] && tokens[..i + 1][i] == ns;
      if ns == LOCAL {
        namespace := namespace + [""];
      } else if ns == TARGET {
        namespace := namespace + [tns];
      } else if StartsWith(ns, "##") {
        errors := errors + [ns];
      } else {
        namespace := namespace + [ns];
      }
      i := i + 1;
    }
    assert tokens[..|tokens|] == tokens;
  }

  /** XsdWildcard._parse, processContents attribute: a wrong value is an error and keeps strict. */
  function ParseProcessContents(attr: Option<string>): (r: (ProcessContents, Option<string>))
    ensures r.1.None? <==> (attr.None? || attr.value in {"strict", "lax", "skip"})
    ensures r.1.Some? ==> r.0 == Strict
  {
    match attr
    case None => (Strict, None)
    case Some(v) =>
      if v == "strict" then (Strict, None)
      else if v == "lax" then (Lax, None)
      else if v == "skip" then (Skip, None)
      else (Strict, Some(v))
  }

  // ---- restriction ----

  /** isinstance(other, type(self)) over the four wildcard classes (XSD 1.1 classes extend 1.0 ones). */
  predicate IsInstanceOf(other: Wildcard, self: Wildcard)
  {
    other.isElement == self.isElement && (other.xsd11 || !self.xsd11)
  }

  function Strength(p: ProcessContents): nat
  {
    match p
    case Skip => 0
    case Lax => 1
    case Strict => 2
  }

  /** The notQName part of XsdWildcard.is_restriction. */
  predicate NotQNameRestricts(self: Wildcard, other: Wildcard)
  {
    if self.notQName == [] && other.notQName == [] then true
    else if DEFINED in other.notQName && DEFINED !in self.notQName then false
    else if DEFINED_SIBLING in other.notQName && DEFINED_SIBLING !in self.notQName then false
    else if other.notQName != [] then DenyQNames(self, QNamesOnly(other.notQName))
    else
      var names := QNamesOnly(self.notQName);
      forall i :: 0 <= i < |names| ==> IsNamespaceAllowed(other, GetNamespace(names[i]))
  }

  /** The namespace part of XsdWildcard.is_restriction. */
  predicate NamespaceRestricts(self: Wildcard, other: Wildcard)
  {
    if self.notNamespace != [] then
      if other.notNamespace != [] then
        forall i :: 0 <= i < |other.notNamespace| ==> other.notNamespace[i] in self.notNamespace
      else if ANY in other.namespace then true
      else if OTHER in other.namespace then "" in self.notNamespace && other.targetNamespace in self.notNamespace
      else false
    else if other.notNamespace != [] then
      if ANY in self.namespace then false
      else if OTHER in self.namespace then
        forall i :: 0 <= i < |other.notNamespace| ==>
          other.notNamespace[i] == "" || other.notNamespace[i] == other.targetNamespace
      else forall i :: 0 <= i < |self.namespace| ==> self.namespace[i] !in other.notNamespace
    else if self.namespace == other.namespace then true
    else if ANY in other.namespace then true
    else if ANY in self.namespace || OTHER in self.namespace then false
    else if OTHER in other.namespace then
      other.targetNamespace !in self.namespace && "" !in self.namespace
    else forall i :: 0 <= i < |self.namespace| ==> self.namespace[i] in other.namespace
  }

  /**
   * XsdWildcard.is_restriction: occurrences (element wildcards, when checked), wildcard
   * class, processContents strength, notQName and then the namespace constraint.
   */
  function IsRestriction(self: Wildcard, selfOccurs: Occurs, other: Wildcard, otherOccurs: Occurs,
                         checkOccurs: bool): (r: bool)
    ensures r ==> Strength(other.processContents) <= Strength(self.processContents)
    ensures r ==> IsInstanceOf(other, self)
    ensures r && checkOccurs && self.isElement ==> HasOccursRestriction(selfOccurs, otherOccurs)
  {
    if checkOccurs && self.isElement && !HasOccursRestriction(selfOccurs, otherOccurs) then false
    else if !IsInstanceOf(other, self) then false
    else if other.processContents == Strict && self.processContents != Strict then false
    else if other.processContents == Lax && self.processContents == Skip then false
    else if !NotQNameRestricts(self, other) then false
    else NamespaceRestricts(self, other)
  }

  /** Every wildcard restricts itself. */
  lemma RestrictionReflexive(w: Wildcard, o: Occurs, checkOccurs: bool)
    ensures IsRestriction(w, o, w, o, checkOccurs)
  {
    var names := QNamesOnly(w.notQName);
    if w.notQName != [] {
      assert forall i :: 0 <= i < |names| ==> names[i] in w.notQName;
    }
  }

  /**
   * A wildcard that restricts another one allows no namespace the other rejects (both with
   * the same target namespace).
   */
  lemma RestrictionAllowsLess(self: Wildcard, so: Occurs, other: Wildcard, oo: Occurs, checkOccurs: bool, x: string)
    requires Wf(self) && Wf(other) && self.targetNamespace == other.targetNamespace
    requires PlainNamespace(x)
    requires IsRestriction(self, so, other, oo, checkOccurs)
    ensures IsNamespaceAllowed(self, x) ==> IsNamespaceAllowed(other, x)
  {
    if IsNamespaceAllowed(self, x) {
      if self.notNamespace == [] && other.notNamespace != [] && OTHER !in self.namespace && ANY !in self.namespace {
        assert x in self.namespace;
        var i :| 0 <= i < |self.namespace| && self.namespace[i] == x;
      } else if self.notNamespace == [] && other.notNamespace == [] && self.namespace != other.namespace
                && ANY !in other.namespace && OTHER !in other.namespace {
        var i :| 0 <= i < |self.namespace| && self.namespace[i] == x;
      }
    }
  }

  // ---- overlap ----

  /** XsdAnyElement.is_overlap between two element wildcards. */
  predicate IsOverlap(self: Wildcard, other: Wildcard)
  {
    if self.notNamespace != [] then
      if other.notNamespace != [] then true
      else if ANY in other.namespace then true
      else if OTHER in other.namespace then true
      else exists i :: 0 <= i < |other.namespace| && other.namespace[i] !in self.notNamespace
    else if other.notNamespace != [] then
      if ANY in self.namespace then true
      else if OTHER in self.namespace then true
      else exists i :: 0 <= i < |self.namespace| && self.namespace[i] !in other.notNamespace
    else if self.namespace == other.namespace then true
    else if ANY in self.namespace || ANY in other.namespace then true
    else if OTHER in self.namespace then
      exists i :: 0 <= i < |other.namespace| && other.namespace[i] != "" && other.namespace[i] != self.targetNamespace
    else if OTHER in other.namespace then
      exists i :: 0 <= i < |self.namespace| && self.namespace[i] != "" && self.namespace[i] != other.targetNamespace
    else exists i :: 0 <= i < |other.namespace| && other.namespace[i] in self.namespace
  }

  function MaxLen(xs: seq<string>): (m: nat)
    ensures forall i :: 0 <= i < |xs| ==> |xs[i]| <= m
  {
    if xs == [] then 0 else var t := MaxLen(xs[1..]); if |xs[0]| > t then |xs[0]| else t
  }

  function Repeat(c: char, n: nat): (r: string)
    ensures |r| == n && forall i :: 0 <= i < n ==> r[i] == c
  {
    if n == 0 then [] else [c] + Repeat(c, n - 1)
  }

  /** A plain namespace name that is none of the given names: it is longer than all of them. */
  function FreshNamespace(xs: seq<string>): (r: string)
    ensures r !in xs && PlainNamespace(r) && r != ""
  {
    var r := Repeat('a', MaxLen(xs) + |XSI_NAMESPACE| + 1);
    assert r[0] == 'a';
    r
  }

  /**
   * Two wildcards with non-empty namespace lists overlap exactly when some plain namespace
   * name is allowed by both.
   */
  lemma OverlapMeaning(a: Wildcard, b: Wildcard)
    requires Wf(a) && Wf(b)
    requires a.namespace != [] || a.notNamespace != []
    requires b.namespace != [] || b.notNamespace != []
    requires XSI_NAMESPACE !in a.namespace && XSI_NAMESPACE !in b.namespace
    ensures IsOverlap(a, b) <==> exists x :: PlainNamespace(x) && IsNamespaceAllowed(a, x) && IsNamespaceAllowed(b, x)
  {
    if IsOverlap(a, b) {
      var x := OverlapWitness(a, b);
    }
  }

  ghost function OverlapWitness(a: Wildcard, b: Wildcard): (x: string)
    requires Wf(a) && Wf(b)
    requires a.namespace != [] || a.notNamespace != []
    requires b.namespace != [] || b.notNamespace != []
    requires XSI_NAMESPACE !in a.namespace && XSI_NAMESPACE !in b.namespace
    requires IsOverlap(a, b)
    ensures PlainNamespace(x) && IsNamespaceAllowed(a, x) && IsNamespaceAllowed(b, x)
  {
    var co := FreshNamespace(a.notNamespace + b.notNamespace + a.namespace + b.namespace + [a.targetNamespace, b.targetNamespace]);
    if a.notNamespace != [] then
      if b.notNamespace != [] || ANY in b.namespace || OTHER in b.namespace then co
      else var i :| 0 <= i < |b.namespace| && b.namespace[i] !in a.notNamespace; b.namespace[i]
    else if b.notNamespace != [] then
      if ANY in a.namespace || OTHER in a.namespace then co
      else var i :| 0 <= i < |a.namespace| && a.namespace[i] !in b.notNamespace; a.namespace[i]
    else if ANY in a.namespace || ANY in b.namespace || OTHER in a.namespace || OTHER in b.namespace then
      if ANY in a.namespace && ANY in b.namespace then co
      else if ANY in a.namespace then (if OTHER in b.namespace then co else b.namespace[0])
      else if ANY in b.namespace then (if OTHER in a.namespace then co else a.namespace[0])
      else if OTHER in a.namespace && OTHER in b.namespace then co
      else if OTHER in a.namespace then
        var i :| 0 <= i < |b.namespace| && b.namespace[i] != "" && b.namespace[i] != a.targetNamespace; b.namespace[i]
      else
        var i :| 0 <= i < |a.namespace| && a.namespace[i] != "" && a.namespace[i] != b.targetNamespace; a.namespace[i]
    else if a.namespace == b.namespace then a.namespace[0]
    else var i :| 0 <= i < |b.namespace| && b.namespace[i] in a.namespace; b.namespace[i]
  }

  // ---- union and intersection ----

  /** The notQName list after XsdWildcard.union. */
  function UnionNotQName(self: Wildcard, other: Wildcard): seq<string>
  {
    if self.notQName == [] then other.notQName
    else UnionKeptQNames(self.notQName, other)
  }

  function UnionKeptQNames(xs: seq<string>, other: Wildcard): (r: seq<string>)
    ensures forall x :: x in r <==> x in xs && (x in other.notQName || !IsNamespaceAllowed(other, GetNamespace(x)))
  {
    if xs == [] then []
    else (if xs[0] in other.notQName || !IsNamespaceAllowed(other, GetNamespace(xs[0])) then [xs[0]] else [])
         + UnionKeptQNames(xs[1..], other)
  }

  /** The notQName list after XsdWildcard.intersection. */
  function IntersectionNotQName(self: Wildcard, other: Wildcard): (r: seq<string>)
    ensures forall x :: x in r <==> x in self.notQName || x in other.notQName
  {
    if self.notQName != [] then ExtendNew(self.notQName, other.notQName) else other.notQName
  }

  /**
   * The union of a ##other wildcard (`w1`) and a namespace list (`w2`) is one the model
   * cannot compute right: the list holds exactly one of the absent namespace and the
   * target namespace of w1 (and the XSD 1.0 branch does not reject it).
   */
  predicate OtherListUnion(self: Wildcard, other: Wildcard)
  {
    self.notNamespace == [] && other.notNamespace == [] && ANY !in self.namespace
    && self.namespace != other.namespace && ANY !in other.namespace
    && (OTHER in other.namespace || OTHER in self.namespace)
  }

  predicate UnionMisses(self: Wildcard, other: Wildcard)
  {
    OtherListUnion(self, other) &&
    var (w1, w2) := if OTHER in other.namespace then (other, self) else (self, other);
    (w1.targetNamespace in w2.namespace && "" !in w2.namespace)
    || ("" in w2.namespace && w1.targetNamespace !in w2.namespace && self.xsd11)
  }

  /** The namespace constraint after XsdWildcard.union(self, other); Err when XSD 1.0 cannot express it. */
  function UnionNamespaces(self: Wildcard, other: Wildcard): Result<NsConstraint, string>
  {
    if self.notNamespace != [] then
      if other.notNamespace != [] then
        var nn := KeepIn(self.notNamespace, other.notNamespace);
        Ok(NsConstraint(if nn == [] then [ANY] else self.namespace, nn))
      else if ANY in other.namespace then Ok(NsConstraint([ANY], []))
      else if OTHER in other.namespace then
        var nn := KeepIn(self.notNamespace, ["", other.targetNamespace]);
        Ok(NsConstraint(if nn == [] then [ANY] else self.namespace, nn))
      else
        var nn := DropIn(self.notNamespace, other.namespace);
        Ok(NsConstraint(if nn == [] then [ANY] else self.namespace, nn))
    else if other.notNamespace != [] then
      if ANY in self.namespace then Ok(NsConstraint(self.namespace, self.notNamespace))
      else
        var nn := if OTHER in self.namespace then KeepIn(other.notNamespace, ["", self.targetNamespace])
                  else DropIn(other.notNamespace, self.namespace);
        Ok(NsConstraint(if nn == [] then [ANY] else [], nn))
    else if ANY in self.namespace || self.namespace == other.namespace then
      Ok(NsConstraint(self.namespace, self.notNamespace))
    else if ANY in other.namespace then Ok(NsConstraint([ANY], self.notNamespace))
    else if OTHER !in other.namespace && OTHER !in self.namespace then
      Ok(NsConstraint(ExtendNew(self.namespace, other.namespace), self.notNamespace))
    else
      var (w1, w2) := if OTHER in other.namespace then (other, self) else (self, other);
      if w1.targetNamespace in w2.namespace && "" in w2.namespace then Ok(NsConstraint([ANY], self.notNamespace))
      else if "" !in w2.namespace && w1.targetNamespace == w2.targetNamespace then
        Ok(NsConstraint([OTHER], self.notNamespace))
      else if !self.xsd11 then Err("not expressible wildcard namespace union")
      else Ok(NsConstraint([], if w1.targetNamespace != "" then ["", w1.targetNamespace] else [""]))
  }

  /**
   * The union allows exactly what one of the two wildcards allows, when both share the target
   * namespace and the union is not one of the cases UnionMisses names.
   */
  lemma UnionAllows(self: Wildcard, other: Wildcard, x: string)
    requires Wf(self) && Wf(other) && self.targetNamespace == other.targetNamespace
    requires PlainNamespace(x) && !UnionMisses(self, other)
    requires UnionNamespaces(self, other).Ok?
    ensures var c := UnionNamespaces(self, other).value;
      Allows(c.namespace, c.notNamespace, self.targetNamespace, x)
      <==> IsNamespaceAllowed(self, x) || IsNamespaceAllowed(other, x)
  {
  }

  /** The union with the ##other/list case following section 3.10.6.3 of XML Schema 1.1 Part 1. */
  function UnionNamespacesFixed(self: Wildcard, other: Wildcard): Result<NsConstraint, string>
  {
    if !OtherListUnion(self, other) then UnionNamespaces(self, other)
    else
      var (w1, w2) := if OTHER in other.namespace then (other, self) else (self, other);
      var t := w1.targetNamespace;
      if t in w2.namespace && "" in w2.namespace then Ok(NsConstraint([ANY], []))
      else if t !in w2.namespace && "" !in w2.namespace && self.targetNamespace == t then
        Ok(NsConstraint([OTHER], []))
      else if !self.xsd11 && "" in w2.namespace then Err("not expressible wildcard namespace union")
      else Ok(NsConstraint([], DropIn(["", t], w2.namespace)))
  }

  /** The corrected union allows exactly what one of the two wildcards allows. */
  lemma UnionFixedAllows(self: Wildcard, other: Wildcard, x: string)
    requires Wf(self) && Wf(other) && self.targetNamespace == other.targetNamespace
    requires PlainNamespace(x)
    requires UnionNamespacesFixed(self, other).Ok?
    ensures var c := UnionNamespacesFixed(self, other).value;
      Allows(c.namespace, c.notNamespace, self.targetNamespace, x)
      <==> IsNamespaceAllowed(self, x) || IsNamespaceAllowed(other, x)
  {
  }

  /** The corrected union fails only where XSD 1.0 has no value for it. */
  lemma UnionFixedFails(self: Wildcard, other: Wildcard)
    requires Wf(self) && Wf(other)
    ensures UnionNamespacesFixed(self, other).Err? ==>
      !self.xsd11 && OtherListUnion(self, other) &&
      var (w1, w2) := if OTHER in other.namespace then (other, self) else (self, other);
      "" in w2.namespace && w1.targetNamespace !in w2.namespace
  {
  }

  /** ##other ∪ {tns} with target namespace tns: the source's union drops tns itself. */
  lemma UnionDropsTargetNamespace()
    ensures var tns := "tns1";
      var self := Wildcard(true, false, [tns], [], [], Strict, tns);
      var other := Wildcard(true, false, [OTHER], [], [], Strict, tns);
      var c := UnionNamespaces(self, other);
      c == Ok(NsConstraint([OTHER], [])) && IsNamespaceAllowed(self, tns)
      && !Allows(c.value.namespace, c.value.notNamespace, tns, tns)
  {
    var tns := "tns1";
    assert tns != OTHER && tns != ANY && OTHER != ANY;
    var self := Wildcard(true, false, [tns], [], [], Strict, tns);
    var other := Wildcard(true, false, [OTHER], [], [], Strict, tns);
    assert OtherListUnion(self, other);
    assert "" !in self.namespace;
  }

  /** The namespace constraint after XsdWildcard.intersection(self, other). */
  function IntersectionNamespaces(self: Wildcard, other: Wildcard): NsConstraint
  {
    if self.notNamespace != [] then
      if other.notNamespace != [] then
        NsConstraint(self.namespace, ExtendNew(self.notNamespace, other.notNamespace))
      else if ANY in other.namespace then NsConstraint(self.namespace, self.notNamespace)
      else if OTHER !in other.namespace then NsConstraint(DropIn(other.namespace, self.notNamespace), [])
      else NsConstraint(self.namespace, AppendMissing(AppendMissing(self.notNamespace, other.targetNamespace), ""))
    else if other.notNamespace != [] then
      if ANY in self.namespace then NsConstraint([], other.notNamespace)
      else if OTHER !in self.namespace then NsConstraint(DropIn(self.namespace, other.notNamespace), self.notNamespace)
      else NsConstraint([], AppendMissing(AppendMissing(other.notNamespace, self.targetNamespace), ""))
    else if self.namespace == other.namespace then NsConstraint(self.namespace, self.notNamespace)
    else if ANY in other.namespace then NsConstraint(self.namespace, self.notNamespace)
    else if ANY in self.namespace then NsConstraint(other.namespace, self.notNamespace)
    else if OTHER in self.namespace then NsConstraint(DropIn(other.namespace, ["", self.targetNamespace]), self.notNamespace)
    else if OTHER !in other.namespace then NsConstraint(KeepIn(self.namespace, other.namespace), self.notNamespace)
    else
      var ns1 := if other.targetNamespace in self.namespace then RemoveFirst(self.namespace, other.targetNamespace)
                 else self.namespace;
      NsConstraint(if "" in ns1 then RemoveFirst(ns1, "") else ns1, self.notNamespace)
  }

  /**
   * The intersection allows exactly what both wildcards allow, when they share the target
   * namespace and the namespace list of self has no repeated names.
   */
  lemma IntersectionAllows(self: Wildcard, other: Wildcard, x: string)
    requires Wf(self) && Wf(other) && self.targetNamespace == other.targetNamespace
    requires NoDup(self.namespace) && PlainNamespace(x)
    ensures var c := IntersectionNamespaces(self, other);
      Allows(c.namespace, c.notNamespace, self.targetNamespace, x)
      <==> IsNamespaceAllowed(self, x) && IsNamespaceAllowed(other, x)
  {
    if self.notNamespace == [] && other.notNamespace == [] && self.namespace != other.namespace
       && ANY !in other.namespace && ANY !in self.namespace && OTHER !in self.namespace && OTHER in other.namespace {
      var t := other.targetNamespace;
      var ns1 := if t in self.namespace then RemoveFirst(self.namespace, t) else self.namespace;
      assert NoDup(ns1) by {
        if t in self.namespace { RemoveFirstNoDup(self.namespace, t); }
      }
    }
  }

  lemma {:induction false} RemoveFirstNoDup(xs: seq<string>, y: string)
    requires y in xs && NoDup(xs)
    ensures NoDup(RemoveFirst(xs, y))
  {
    if xs[0] != y {
      var tail := xs[1..];
      assert NoDup(tail) by {
        forall i, j | 0 <= i < j < |tail| ensures tail[i] != tail[j] { assert tail[i] == xs[i + 1] && tail[j] == xs[j + 1]; }
      }
      RemoveFirstNoDup(tail, y);
      var r := RemoveFirst(tail, y);
      assert xs[0] !in tail by {
        forall k | 0 <= k < |tail| ensures tail[k] != xs[0] { assert tail[k] == xs[k + 1]; }
      }
      assert xs[0] !in r;
      assert NoDup([xs[0]] + r) by {
        forall i, j | 0 <= i < j < |[xs[0]] + r| ensures ([xs[0]] + r)[i] != ([xs[0]] + r)[j] {
          if i == 0 {
            assert ([xs[0]] + r)[j] == r[j - 1];
          } else {
            assert ([xs[0]] + r)[i] == r[i - 1] && ([xs[0]] + r)[j] == r[j - 1];
          }
        }
      }
    } else {
      assert NoDup(xs[1..]) by {
        forall i, j | 0 <= i < j < |xs[1..]| ensures xs[1..][i] != xs[1..][j] { assert xs[1..][i] == xs[i + 1] && xs[1..][j] == xs[j + 1]; }
      }
    }
  }

  /** XsdWildcard with the three lists that union and intersection rewrite in place. */
  class XsdWildcard {
    const isElement: bool
    const xsd11: bool
    const processContents: ProcessContents
    const targetNamespace: string
    var namespace: seq<string>
    var notNamespace: seq<string>
    var notQName: seq<string>

    function Value(): Wildcard
      reads this
    {
      Wildcard(isElement, xsd11, namespace, notNamespace, notQName, processContents, targetNamespace)
    }

    constructor (w: Wildcard)
      ensures Value() == w
    {
      isElement, xsd11, processContents, targetNamespace := w.isElement, w.xsd11, w.processContents, w.targetNamespace;
      namespace, notNamespace, notQName := w.namespace, w.notNamespace, w.notQName;
    }

    /** XsdWildcard.union: rewrites the lists so that the wildcard also admits what other admits. */
    method Union(other: Wildcard) returns (r: Result<(), string>)
      modifies this
      ensures notQName == UnionNotQName(old(Value()), other)
      ensures match UnionNamespaces(old(Value()), other)
        case Ok(c) => r.Ok? && namespace == c.namespace && notNamespace == c.notNamespace
        case Err(m) => r == Err(m) && namespace == old(namespace) && notNamespace == old(notNamespace)
    {
      ghost var w := Value();
      r := Ok(());
      if notQName == [] {
        notQName := other.notQName;
      } else {
        notQName := UnionKeptQNames(notQName, other);
      }

      if notNamespace != [] {
        if other.notNamespace != [] {
          notNamespace := KeepIn(notNamespace, other.notNamespace);
        } else if ANY in other.namespace {
          notNamespace := [];
          namespace := [ANY];
          return;
        } else if OTHER in other.namespace {
          notNamespace := KeepIn(notNamespace, ["", other.targetNamespace]);
        } else {
          notNamespace := DropIn(notNamespace, other.namespace);
        }
        if notNamespace == [] {
          namespace := [ANY];
        }
        return;
      } else if other.notNamespace != [] {
        if ANY in namespace {
          return;
        } else if OTHER in namespace {
          notNamespace := KeepIn(other.notNamespace, ["", targetNamespace]);
        } else {
          notNamespace := DropIn(other.notNamespace, namespace);
        }
        namespace := if notNamespace == [] then [ANY] else [];
        return;
      }

      if ANY in namespace || namespace == other.namespace {
        return;
      } else if ANY in other.namespace {
        namespace := [ANY];
        return;
      }
      var t1: string, ns2: seq<string>, t2: string;
      if OTHER in other.namespace {
        t1, ns2, t2 := other.targetNamespace, namespace, targetNamespace;
      } else if OTHER in namespace {
        t1, ns2, t2 := targetNamespace, other.namespace, other.targetNamespace;
      } else {
        namespace := ExtendNew(namespace, other.namespace);
        return;
      }

      if t1 in ns2 && "" in ns2 {
        namespace := [ANY];
      } else if "" !in ns2 && t1 == t2 {
        namespace := [OTHER];
      } else if !xsd11 {
        r := Err("not expressible wildcard namespace union");
      } else {
        namespace := [];
        notNamespace := if t1 != "" then ["", t1] else [""];
      }
    }

    /** XsdWildcard.intersection: rewrites the lists so that the wildcard admits only what both admit. */
    method Intersection(other: Wildcard)
      modifies this
      ensures notQName == IntersectionNotQName(old(Value()), other)
      ensures NsConstraint(namespace, notNamespace) == IntersectionNamespaces(old(Value()), other)
    {
      if notQName != [] {
        notQName := ExtendNew(notQName, other.notQName);
      } else {
        notQName := other.notQName;
      }

      if notNamespace != [] {
        if other.notNamespace != [] {
          notNamespace := ExtendNew(notNamespace, other.notNamespace);
        } else if ANY in other.namespace {
        } else if OTHER !in other.namespace {
          namespace := DropIn(other.namespace, notNamespace);
          notNamespace := [];
        } else {
          notNamespace := AppendMissing(notNamespace, other.targetNamespace);
          notNamespace := AppendMissing(notNamespace, "");
        }
        return;
      } else if other.notNamespace != [] {
        if ANY in namespace {
          notNamespace := other.notNamespace;
          namespace := [];
        } else if OTHER !in namespace {
          namespace := DropIn(namespace, other.notNamespace);
        } else {
          notNamespace := other.notNamespace;
          notNamespace := AppendMissing(notNamespace, targetNamespace);
          notNamespace := AppendMissing(notNamespace, "");
          namespace := [];
        }
        return;
      }

      if namespace == other.namespace {
        return;
      } else if ANY in other.namespace {
        return;
      } else if ANY in namespace {
        namespace := other.namespace;
      } else if OTHER in namespace {
        namespace := DropIn(other.namespace, ["", targetNamespace]);
      } else if OTHER !in other.namespace {
        namespace := KeepIn(namespace, other.namespace);
      } else {
        if other.targetNamespace in namespace {
          namespace := RemoveFirst(namespace, other.targetNamespace);
        }
        if "" in namespace {
          namespace := RemoveFirst(namespace, "");
        }
      }
    }
  }

  // ---- open content ----

  datatype OpenContentMode = ModeNone | Interleave | Suffix

  /** An <xs:openContent>; its wildcard is absent under mode 'none'. */
  datatype OpenContent = OpenContent(mode: OpenContentMode, anyElement: Option<Wildcard>)

  /** The occurrences of the wildcard of an open content: 0..unbounded. */
  const OPEN_CONTENT_OCCURS: Occurs := Occurs(0, None)

  /**
   * XsdOpenContent.is_restriction: against no open content or mode 'none' only 'none'
   * restricts; interleave never restricts suffix; otherwise the wildcards decide. A missing
   * wildcard where the source dereferences one is an error.
   */
  function OpenContentIsRestriction(self: OpenContent, other: Option<OpenContent>): (r: Result<bool, string>)
    ensures (other.None? || other.value.mode == ModeNone) ==> r == Ok(self.mode == ModeNone)
    ensures other.Some? && self.mode == Interleave && other.value.mode == Suffix ==> r == Ok(false)
    ensures r == Ok(true) && other.Some? && other.value.mode != ModeNone ==>
              self.anyElement.Some? && other.value.anyElement.Some? &&
              IsRestriction(self.anyElement.value, OPEN_CONTENT_OCCURS, other.value.anyElement.value,
                            OPEN_CONTENT_OCCURS, true)
  {
    if other.None? || other.value.mode == ModeNone then Ok(self.mode == ModeNone)
    else if self.mode == Interleave && other.value.mode == Suffix then Ok(false)
    else if self.anyElement.None? || other.value.anyElement.None? then Err("AttributeError")
    else Ok(IsRestriction(self.anyElement.value, OPEN_CONTENT_OCCURS, other.value.anyElement.value,
                          OPEN_CONTENT_OCCURS, true))
  }

  /** Open content restriction is reflexive whenever the wildcard is present or the mode is 'none'. */
  lemma OpenContentReflexive(oc: OpenContent)
    requires oc.mode == ModeNone || oc.anyElement.Some?
    ensures OpenContentIsRestriction(oc, Some(oc)) == Ok(true)
  {
    if oc.mode != ModeNone {
      RestrictionReflexive(oc.anyElement.value, OPEN_CONTENT_OCCURS, true);
    }
  }
}
