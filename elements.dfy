// Element declarations as particles of a content model: name and substitution
// matching, overlap and consistency with other leaves (elements or wildcards),
// is_single, and the xsi:nil, abstract and fixed/default decisions of decoding.
module Elements {
  import opened Wrappers
  import opened Strs
  import opened Particles
  import opened Wildcards

  /**
   * An element declaration. `id` stands for the object identity of the source; `members` is
   * what the schema's substitution-group map holds for this element's name (the direct
   * members, in order); `typeId` is the identity of its type and `alternatives` its type table.
   * `schemaDefaultNamespace` is what the schema's namespace map holds for the empty prefix
   * (`default_namespace`), the empty string when it holds nothing.
   */
  datatype ElementDecl = ElementDecl(
    id: nat, name: string, qualifiedName: string, qualified: bool, targetNamespace: string,
    schemaDefaultNamespace: string, isGlobal: bool, isRef: bool, isAbstract: bool, xsd11: bool, nillable: bool,
    substitutionGroup: Option<string>, typeId: nat, alternatives: seq<nat>,
    fixed: Option<string>, default: Option<string>, occurs: Occurs,
    members: seq<ElementDecl>)

  /** XsdElement.iter_substitutes: the transitive members of the substitution group, depth first. */
  function IterSubstitutes(e: ElementDecl): (r: seq<ElementDecl>)
    ensures !e.xsd11 ==> forall k :: 0 <= k < |r| ==> !r[k].isAbstract
    decreases e, |e.members| + 1
  {
    if !e.isGlobal && !e.isRef then [] else SubstitutesFrom(e, 0)
  }

  function SubstitutesFrom(e: ElementDecl, i: nat): (r: seq<ElementDecl>)
    requires i <= |e.members|
    ensures !e.xsd11 ==> forall k :: 0 <= k < |r| ==> !r[k].isAbstract
    decreases e, |e.members| - i
  {
    if i == |e.members| then []
    else
      var m := e.members[i];
      var own := if e.xsd11 then [m] + IterSubstitutes(m) else NonAbstract([m] + IterSubstitutes(m));
      own + SubstitutesFrom(e, i + 1)
  }

  function NonAbstract(xs: seq<ElementDecl>): (r: seq<ElementDecl>)
    ensures forall k :: 0 <= k < |r| ==> !r[k].isAbstract && r[k] in xs
    ensures forall x :: x in xs && !x.isAbstract ==> x in r
  {
    if xs == [] then [] else (if xs[0].isAbstract then [] else [xs[0]]) + NonAbstract(xs[1..])
  }

  /** The first element of xs with the given name. */
  function FirstNamed(xs: seq<ElementDecl>, name: string): (r: Option<ElementDecl>)
    ensures r.Some? ==> r.value in xs && r.value.name == name
    ensures r.None? <==> forall k :: 0 <= k < |xs| ==> xs[k].name != name
    ensures r.Some? ==> exists k :: 0 <= k < |xs| && xs[k] == r.value && forall j :: 0 <= j < k ==> xs[j].name != name
  {
    if xs == [] then None
    else if xs[0].name == name then Some(xs[0])
    else
      var t := FirstNamed(xs[1..], name);
      assert t.Some? ==> exists k :: 0 <= k < |xs| && xs[k] == t.value && forall j :: 0 <= j < k ==> xs[j].name != name by {
        if t.Some? {
          var k :| 0 <= k < |xs[1..]| && xs[1..][k] == t.value && forall j :: 0 <= j < k ==> xs[1..][j].name != name;
          assert xs[k + 1] == t.value;
          forall j | 0 <= j < k + 1 ensures xs[j].name != name {
            if j > 0 { assert xs[j] == xs[1..][j - 1]; }
          }
        }
      }
      t
  }

  /** A local name completed with a (non-empty) default namespace. */
  function Expand(ns: string, local: string): string
  {
    "{" + ns + "}" + local
  }

  predicate UnqualifiedWorkaround(e: ElementDecl, name: string, defaultNamespace: string)
  {
    defaultNamespace != "" && name != "" && name[0] != '{' && !e.qualified && defaultNamespace == e.targetNamespace
  }

  /** The name the lookup compares: a local name is completed with the default namespace. */
  function CompletedName(name: string, defaultNamespace: string): string
  {
    if defaultNamespace != "" && name != "" && name[0] != '{' then Expand(defaultNamespace, name) else name
  }

  /**
   * XsdElement.is_matching: an empty name never matches; otherwise the completed name is the
   * element's own name or a substitute's (qualified names under the backward-compatibility
   * rule for unqualified local elements).
   */
  function IsMatching(e: ElementDecl, name: Option<string>, defaultNamespace: string): (r: bool)
    ensures name.None? || name == Some("") ==> !r
    ensures name.Some? && name.value != "" && !UnqualifiedWorkaround(e, name.value, defaultNamespace) ==>
              (r <==> StandsFor(e, CompletedName(name.value, defaultNamespace)))
  {
    if name.None? || name.value == "" then false
    else
      var n := CompletedName(name.value, defaultNamespace);
      var subs := IterSubstitutes(e);
      if UnqualifiedWorkaround(e, name.value, defaultNamespace) then
        n == e.qualifiedName || exists k :: 0 <= k < |subs| && subs[k].qualifiedName == n
      else
        StandsFor(e, n)
  }

  /** XsdElement.match: the element itself on its own name, else the first substitute with that name. */
  function Match(e: ElementDecl, name: Option<string>, defaultNamespace: string): (r: Option<ElementDecl>)
    ensures r.Some? ==> name.Some? && r.value.name == CompletedName(name.value, defaultNamespace)
    ensures r.Some? ==> r.value == e || r.value in IterSubstitutes(e)
    ensures name.Some? && name.value != "" && CompletedName(name.value, defaultNamespace) == e.name ==> r == Some(e)
  {
    if name.None? || name.value == "" then None
    else
      var n := CompletedName(name.value, defaultNamespace);
      if n == e.name then Some(e) else FirstNamed(IterSubstitutes(e), n)
  }

  /** match and is_matching agree, outside the backward-compatibility rule for unqualified locals. */
  lemma MatchAgreesWithIsMatching(e: ElementDecl, name: Option<string>, defaultNamespace: string)
    requires name.Some? ==> !UnqualifiedWorkaround(e, name.value, defaultNamespace)
    ensures Match(e, name, defaultNamespace).Some? <==> IsMatching(e, name, defaultNamespace)
  {
  }

  /** XsdElement.is_single (XsdGroup reduced to its occurrences, model and length). */
  datatype ParentGroup = ParentGroup(occurs: Occurs, isChoice: bool, length: nat)

  function IsSingle(e: ElementDecl, parent: Option<ParentGroup>): (r: bool)
    ensures parent.None? ==> r
    ensures parent.Some? && e.occurs.max != Some(1) ==> !r
    ensures parent.Some? && e.occurs.max == Some(1) && parent.value.occurs.max == Some(1) ==> r
    ensures parent.Some? && e.occurs.max == Some(1) && parent.value.occurs.max != Some(1) ==>
              (r <==> !parent.value.isChoice && parent.value.length > 1)
  {
    match parent
    case None => true
    case Some(p) =>
      if e.occurs.max != Some(1) then false
      else if p.occurs.max == Some(1) then true
      else !p.isChoice && p.length > 1
  }

  // ---- overlap and consistency between leaves ----

  /**
   * A leaf of a content model: an element declaration or an element wildcard (with its
   * identity, its occurrences and the precedences recorded for it per group identity).
   */
  datatype LeafKind =
    | ElementLeaf(e: ElementDecl)
    | WildcardLeaf(wid: nat, woccurs: Occurs, w: Wildcard, precedences: map<nat, seq<ElementDecl>>)

  /** The names an element stands for in a content: its own and its substitutes'. */
  predicate StandsFor(e: ElementDecl, n: string)
  {
    n == e.name || exists k :: 0 <= k < |IterSubstitutes(e)| && IterSubstitutes(e)[k].name == n
  }

  /** XsdElement.is_overlap between two XSD 1.0 elements: same name or a direct head/member pair. */
  predicate ElementsOverlap10(a: ElementDecl, b: ElementDecl)
  {
    a.name == b.name || b.substitutionGroup == Some(a.name) || Some(b.name) == a.substitutionGroup
  }

  lemma ElementsOverlap10Symmetric(a: ElementDecl, b: ElementDecl)
    ensures ElementsOverlap10(a, b) <==> ElementsOverlap10(b, a)
  {
  }

  /** Xsd11Element.is_overlap between two elements. */
  predicate ElementsOverlap11(a: ElementDecl, b: ElementDecl)
  {
    var sa := IterSubstitutes(a);
    var sb := IterSubstitutes(b);
    a.name == b.name
    || (exists k :: 0 <= k < |sb| && sb[k].name == a.name)
    || (exists k :: 0 <= k < |sa| && (sa[k].name == b.name || exists j :: 0 <= j < |sb| && sb[j].id == sa[k].id))
  }

  /**
   * Overlapping XSD 1.1 elements can stand for a common name (the converse fails: two
   * distinct substitutes with the same name are not looked at).
   */
  lemma ElementsOverlap11Sound(a: ElementDecl, b: ElementDecl)
    requires forall k, j :: 0 <= k < |IterSubstitutes(a)| && 0 <= j < |IterSubstitutes(b)| ==>
               (IterSubstitutes(a)[k].id == IterSubstitutes(b)[j].id ==> IterSubstitutes(a)[k] == IterSubstitutes(b)[j])
    requires ElementsOverlap11(a, b)
    ensures exists n :: StandsFor(a, n) && StandsFor(b, n)
  {
    var sa := IterSubstitutes(a);
    var sb := IterSubstitutes(b);
    if a.name == b.name {
      assert StandsFor(a, a.name) && StandsFor(b, a.name);
    } else if exists k :: 0 <= k < |sb| && sb[k].name == a.name {
      assert StandsFor(a, a.name) && StandsFor(b, a.name);
    } else {
      var k :| 0 <= k < |sa| && (sa[k].name == b.name || exists j :: 0 <= j < |sb| && sb[j].id == sa[k].id);
      if sa[k].name == b.name {
        assert StandsFor(a, b.name) && StandsFor(b, b.name);
      } else {
        var j :| 0 <= j < |sb| && sb[j].id == sa[k].id;
        assert StandsFor(a, sa[k].name) && StandsFor(b, sa[k].name);
      }
    }
  }

  /** A wildcard's is_matching with no group and no occurrence counter. */
  predicate WildcardMatches(w: Wildcard, name: string, defaultNamespace: string, globals: map<string, ElementDecl>)
  {
    if w.xsd11 then Xsd11IsMatching(w, map[], Some(name), defaultNamespace, globals, None, None)
    else Wildcards.IsMatching(w, Some(name), defaultNamespace)
  }

  /** XsdElement.is_overlap with a wildcard: the element or a direct member of its group is matched. */
  predicate ElementWildcardOverlap(e: ElementDecl, w: Wildcard, globals: map<string, ElementDecl>)
  {
    var dns := e.schemaDefaultNamespace;
    WildcardMatches(w, e.name, dns, globals)
    || exists k :: 0 <= k < |e.members| && WildcardMatches(w, e.members[k].name, dns, globals)
  }

  /** is_overlap between two leaves; a wildcard hands an element argument over to the element. */
  predicate LeafOverlap(a: LeafKind, b: LeafKind, globals: map<string, ElementDecl>)
  {
    match (a, b)
    case (ElementLeaf(x), ElementLeaf(y)) => if x.xsd11 then ElementsOverlap11(x, y) else ElementsOverlap10(x, y)
    case (ElementLeaf(x), WildcardLeaf(_, _, w, _)) => ElementWildcardOverlap(x, w, globals)
    case (WildcardLeaf(_, _, w, _), ElementLeaf(x)) => ElementWildcardOverlap(x, w, globals)
    case (WildcardLeaf(_, _, v, _), WildcardLeaf(_, _, w, _)) => Wildcards.IsOverlap(v, w)
  }

  /** Overlap between an element and a wildcard does not depend on the order of the arguments. */
  lemma LeafOverlapMixedSymmetric(e: ElementDecl, x: LeafKind, globals: map<string, ElementDecl>)
    requires x.WildcardLeaf?
    ensures LeafOverlap(ElementLeaf(e), x, globals) == LeafOverlap(x, ElementLeaf(e), globals)
  {
  }

  /** XsdElement.is_consistent (XSD 1.0): different names, or the very same type. */
  predicate ElementsConsistent10(a: ElementDecl, b: ElementDecl)
  {
    a.name != b.name || a.typeId == b.typeId
  }

  /**
   * Xsd11Element.is_consistent between two elements: the pair compared is the one whose names
   * meet (the element or a substitute); iter_substitutes' loop variable is what stays bound
   * when the first search runs out (the last substitute of a, or a itself when it has none).
   */
  function ConsistentPair11(a: ElementDecl, b: ElementDecl): (r: Option<(ElementDecl, ElementDecl)>)
  {
    if a.name == b.name then Some((a, b))
    else
      var sa := IterSubstitutes(a);
      match FirstNamed(sa, b.name)
      case Some(e1) => Some((e1, b))
      case None =>
        var last := if sa == [] then a else sa[|sa| - 1];
        match FirstNamed(IterSubstitutes(b), a.name)
        case Some(e2) => Some((last, e2))
        case None => None
  }

  /** The same search keeping a when its substitutes do not meet b's name. */
  function ConsistentPairFixed(a: ElementDecl, b: ElementDecl): (r: Option<(ElementDecl, ElementDecl)>)
    ensures r.Some? ==> r.value.0.name == r.value.1.name
    ensures r.Some? ==> (r.value.0 == a || r.value.0 in IterSubstitutes(a)) && (r.value.1 == b || r.value.1 in IterSubstitutes(b))
    ensures r.None? ==> a.name != b.name
  {
    if a.name == b.name then Some((a, b))
    else
      match FirstNamed(IterSubstitutes(a), b.name)
      case Some(e1) => Some((e1, b))
      case None =>
        match FirstNamed(IterSubstitutes(b), a.name)
        case Some(e2) => Some((a, e2))
        case None => None
  }

  predicate PairConsistent(p: (ElementDecl, ElementDecl), strict: bool)
  {
    |p.0.alternatives| == |p.1.alternatives| && (p.0.typeId == p.1.typeId || !strict)
  }

  function ElementsConsistent11(a: ElementDecl, b: ElementDecl, strict: bool): (r: bool)
  {
    match ConsistentPair11(a, b)
    case None => true
    case Some(p) => PairConsistent(p, strict)
  }

  /** The corrected check compares elements that share a name. */
  function ElementsConsistent11Fixed(a: ElementDecl, b: ElementDecl, strict: bool): (r: bool)
    ensures r <==> forall p :: ConsistentPairFixed(a, b) == Some(p) ==> PairConsistent(p, strict)
  {
    match ConsistentPairFixed(a, b)
    case None => true
    case Some(p) => PairConsistent(p, strict)
  }

  /**
   * Two XSD 1.1 global elements: a (no type alternatives, type 7) heads s (one alternative,
   * type 8); b heads x, which bears a's name, has no alternatives and type 7.
   */
  function LeakExample(): (ElementDecl, ElementDecl)
  {
    var o := Occurs(1, Some(1));
    var s := ElementDecl(2, "s", "s", true, "", "", true, false, false, true, false, Some("a"), 8, [1], None, None, o, []);
    var x := ElementDecl(3, "a", "a", true, "", "", true, false, false, true, false, Some("b"), 7, [], None, None, o, []);
    var a := ElementDecl(1, "a", "a", true, "", "", true, false, false, true, false, None, 7, [], None, None, o, [s]);
    var b := ElementDecl(4, "b", "b", true, "", "", true, false, false, true, false, None, 9, [], None, None, o, [x]);
    (a, b)
  }

  /**
   * The source compares the last substitute of a, not a, with the substitute of b that bears
   * a's name, and so reports a and b inconsistent although a and x agree.
   */
  lemma ConsistentPairLeak()
    ensures var (a, b) := LeakExample();
      !ElementsConsistent11(a, b, true) && ElementsConsistent11Fixed(a, b, true)
  {
    var (a, b) := LeakExample();
    var s := a.members[0];
    var x := b.members[0];
    assert IterSubstitutes(s) == [];
    assert IterSubstitutes(x) == [];
    assert SubstitutesFrom(a, 1) == [];
    assert IterSubstitutes(a) == [s];
    assert SubstitutesFrom(b, 1) == [];
    assert IterSubstitutes(b) == [x];
    assert ConsistentPair11(a, b) == Some((s, x));
    assert ConsistentPairFixed(a, b) == Some((a, x));
  }

  // ---- XSD 1.1 element wildcard matching ----

  /** The sibling elements of the group an Xsd11AnyElement is matched in (non-wildcard leaves). */
  datatype GroupContext = GroupContext(groupId: nat, siblings: seq<ElementDecl>)

  /**
   * Xsd11AnyElement.is_matching: the namespace test of the wildcard, then the precedences
   * recorded for the group (elements matching the name and, when occurrences are given, not
   * yet over their maximum take precedence), then ##defined, ##definedSibling and notQName.
   */
  predicate Xsd11IsMatching(w: Wildcard, precedences: map<nat, seq<ElementDecl>>, name: Option<string>,
                            defaultNamespace: string, globals: map<string, ElementDecl>,
                            group: Option<GroupContext>, occurs: Option<nat -> nat>)
  {
    if name.None? then false
    else
      var n := name.value;
      var nsOk := if n == "" || n[0] == '{' then IsNamespaceAllowed(w, GetNamespace(n))
                  else if defaultNamespace == "" then IsNamespaceAllowed(w, "")
                  else IsNamespaceAllowed(w, "") || IsNamespaceAllowed(w, defaultNamespace);
      var full := CompletedName(n, defaultNamespace);
      nsOk
      && !(group.Some? && group.value.groupId in precedences &&
           var ps := precedences[group.value.groupId];
           exists k :: 0 <= k < |ps| && IsMatching(ps[k], Some(full), "") &&
             (occurs.None? || !IsOver(ps[k].occurs, occurs.value(ps[k].id))))
      && !(DEFINED in w.notQName && full in globals)
      && !(group.Some? && DEFINED_SIBLING in w.notQName &&
           exists k :: 0 <= k < |group.value.siblings| && IsMatching(group.value.siblings[k], Some(full), ""))
      && full !in w.notQName
  }

  /** Whatever the context, the XSD 1.1 test never matches more than the namespace test. */
  lemma Xsd11MatchingNarrows(w: Wildcard, precedences: map<nat, seq<ElementDecl>>, name: Option<string>,
                             defaultNamespace: string, globals: map<string, ElementDecl>,
                             group: Option<GroupContext>, occurs: Option<nat -> nat>)
    ensures Xsd11IsMatching(w, precedences, name, defaultNamespace, globals, group, occurs) ==>
              Wildcards.IsMatching(w, name, defaultNamespace)
  {
  }

  /** A name listed in notQName is never matched. */
  lemma Xsd11NotQNameExcludes(w: Wildcard, precedences: map<nat, seq<ElementDecl>>, n: string,
                              globals: map<string, ElementDecl>, group: Option<GroupContext>,
                              occurs: Option<nat -> nat>)
    requires n in w.notQName
    ensures !Xsd11IsMatching(w, precedences, Some(n), "", globals, group, occurs)
  {
  }

  /** XsdAnyElement.match with resolve: the matched global element of the completed name, if any. */
  function WildcardResolve(w: Wildcard, name: string, defaultNamespace: string, globals: map<string, ElementDecl>): (r: Option<ElementDecl>)
    ensures r.Some? ==> WildcardMatches(w, name, defaultNamespace, globals)
    ensures r.Some? ==> CompletedName(name, defaultNamespace) in globals && r.value == globals[CompletedName(name, defaultNamespace)]
  {
    if !WildcardMatches(w, name, defaultNamespace, globals) then None
    else
      var n := CompletedName(name, defaultNamespace);
      if n in globals then Some(globals[n]) else None
  }

  /** Xsd11Element.is_consistent with a wildcard: skip wildcards, or the resolved element is consistent. */
  function ElementWildcardConsistent11(e: ElementDecl, w: Wildcard, globals: map<string, ElementDecl>): (r: bool)
    ensures w.processContents == Skip ==> r
    ensures !WildcardMatches(w, e.name, e.schemaDefaultNamespace, globals) ==> r
    ensures CompletedName(e.name, e.schemaDefaultNamespace) !in globals ==> r
    ensures w.processContents != Skip && WildcardMatches(w, e.name, e.schemaDefaultNamespace, globals)
            && CompletedName(e.name, e.schemaDefaultNamespace) in globals ==>
              (r <==> ElementsConsistent11Fixed(e, globals[CompletedName(e.name, e.schemaDefaultNamespace)], false))
  {
    if w.processContents == Skip then true
    else
      var dns := e.schemaDefaultNamespace;
      match WildcardResolve(w, e.name, dns, globals)
      case None => true
      case Some(x) => ElementsConsistent11Fixed(e, x, false)
  }

  // ---- decoding decisions ----

  datatype NilOutcome = NotNilled | Nilled | NilError(reason: string)

  function IsBooleanLiteral(v: string): bool { v in {"0", "1", "false", "true"} }

  /**
   * The xsi:nil check of XsdElement.iter_decode: `attr` is the attribute's value, `hasText`
   * whether the element has text (even empty), `children` its child count.
   */
  function XsiNil(e: ElementDecl, attr: Option<string>, hasText: bool, children: nat): (r: NilOutcome)
    ensures r == Nilled <==> attr.Some? && e.nillable && Strip(attr.value) in {"1", "true"}
                             && e.fixed.None? && !hasText && children == 0
    ensures r.NilError? <==> attr.Some? && !(e.nillable && Strip(attr.value) in {"0", "false"}) && r != Nilled
    ensures attr.Some? && !e.nillable ==> r == NilError("element is not nillable")
  {
    if attr.None? then NotNilled
    else
      var v := Strip(attr.value);
      if !e.nillable then NilError("element is not nillable")
      else if !IsBooleanLiteral(v) then NilError("xsi:nil attribute must have a boolean value")
      else if v in {"0", "false"} then NotNilled
      else if e.fixed.Some? then NilError("xsi:nil='true' but the element has a fixed value")
      else if hasText || children > 0 then NilError("xsi:nil='true' but the element is not empty")
      else Nilled
  }

  datatype AbstractOutcome = Concrete | AbstractError(reason: string) | Delegate(to: ElementDecl)

  /** The abstract check at the start of XsdElement.iter_decode. */
  function AbstractCheck(e: ElementDecl, tag: string): (r: AbstractOutcome)
    ensures !e.isAbstract <==> r == Concrete
    ensures e.isAbstract && e.name == tag ==> r == AbstractError("can't use an abstract element in an instance")
    ensures r.Delegate? ==> r.to.name == tag && r.to in IterSubstitutes(e) && e.name != tag
  {
    if !e.isAbstract then Concrete
    else if e.name == tag then AbstractError("can't use an abstract element in an instance")
    else if e.members == [] then
      AbstractError("can't use an abstract XSD element for validation unless it's the head of a substitution group")
    else
      match FirstNamed(IterSubstitutes(e), tag)
      case Some(x) => Delegate(x)
      case None => AbstractError("can't use an abstract XSD element for validation")
  }

  /** Text after the fixed/default step of simple content decoding, and whether a fixed-value error is reported. */
  datatype FixedOutcome = FixedOutcome(text: Option<string>, error: bool)

  /**
   * Simple content of XsdElement.iter_decode: empty text takes the fixed value; other text
   * must decode to the fixed value's decoded value; without a fixed value empty text takes
   * the default when defaults are used. `decode` is the type's text decoder.
   */
  function FixedOrDefault<V(==)>(e: ElementDecl, text: Option<string>, useDefaults: bool, decode: string -> V): (r: FixedOutcome)
    ensures r.error ==> e.fixed.Some? && text.Some? && text.value != "" && decode(text.value) != decode(e.fixed.value)
    ensures e.fixed.Some? && !r.error ==> r.text.Some? && decode(r.text.value) == decode(e.fixed.value)
    ensures e.fixed.None? && (text.None? || text == Some("")) && e.default.Some? && useDefaults ==> r.text == e.default
    ensures e.fixed.None? && !(text.None? || text == Some("")) ==> r.text == text && !r.error
  {
    match e.fixed
    case Some(f) =>
      if text.None? || text.value == "" then FixedOutcome(Some(f), false)
      else if text.value == f then FixedOutcome(text, false)
      else FixedOutcome(text, decode(text.value) != decode(f))
    case None =>
      if (text.None? || text.value == "") && e.default.Some? && useDefaults then FixedOutcome(e.default, false)
      else FixedOutcome(text, false)
  }
}
